/** The four directory tables, and the two ways in which a snapshot is published to them:
    `_publish_snapshot` (`src/core/acessorias_directory.py`) and `_apply_directory_delta`
    (`src/core/digisac_acessorias_reconciliation.py`). */
module DirectoryStore {
  import opened Common
  import opened Tables
  import opened Directory

  datatype Stored = Stored(
    departments: Table<string, DepartmentFields>,
    companies: Table<string, CompanyFields>,
    contacts: Table<(nat, string), ContactFields>,
    relations: Table<(nat, nat), ()>)

  // ---- Reading the tables through external ids -----------------------------------------------------

  function ContactAt(companies: Table<string, CompanyFields>, contacts: Table<(nat, string), ContactFields>,
                     e: string, key: string): Option<Cell<ContactFields>>
  {
    if e in companies.rows && (companies.rows[e].id, key) in contacts.rows then
      Some(contacts.rows[(companies.rows[e].id, key)].cell)
    else None
  }

  function RelationAt(departments: Table<string, DepartmentFields>, companies: Table<string, CompanyFields>,
                      relations: Table<(nat, nat), ()>, e: string, f: string): Option<Cell<()>>
  {
    if && e in companies.rows && f in departments.rows
       && (companies.rows[e].id, departments.rows[f].id) in relations.rows
    then Some(relations.rows[(companies.rows[e].id, departments.rows[f].id)].cell)
    else None
  }

  function Lookup<K, V>(m: map<K, V>, k: K): Option<V> { if k in m then Some(m[k]) else None }

  ghost predicate ReadsContacts(m: map<(string, string), Cell<ContactFields>>,
                                companies: Table<string, CompanyFields>,
                                contacts: Table<(nat, string), ContactFields>) {
    forall e, key :: Lookup(m, (e, key)) == ContactAt(companies, contacts, e, key)
  }

  ghost predicate ReadsRelations(m: map<(string, string), Cell<()>>, departments: Table<string, DepartmentFields>,
                                 companies: Table<string, CompanyFields>, relations: Table<(nat, nat), ()>) {
    forall e, f :: Lookup(m, (e, f)) == RelationAt(departments, companies, relations, e, f)
  }

  /** `f` is what the tables say, by external ids: the dictionaries of `_load_directory_rows`. */
  ghost predicate Reads(f: Facts, st: Stored) {
    && f.departments == Cells(st.departments)
    && f.companies == Cells(st.companies)
    && ReadsContacts(f.contacts, st.companies, st.contacts)
    && ReadsRelations(f.relations, st.departments, st.companies, st.relations)
  }

  function Ids<K, V>(t: Table<K, V>): set<nat> { set k | k in t.rows :: t.rows[k].id }

  /** The foreign keys. */
  ghost predicate ContactsRefer(companies: Table<string, CompanyFields>, contacts: Table<(nat, string), ContactFields>) {
    forall ck :: ck in contacts.rows ==> ck.0 in Ids(companies)
  }

  ghost predicate RelationsRefer(departments: Table<string, DepartmentFields>, companies: Table<string, CompanyFields>,
                                 relations: Table<(nat, nat), ()>) {
    forall r :: r in relations.rows ==> r.0 in Ids(companies) && r.1 in Ids(departments)
  }

  /** Unique ids and the foreign keys. */
  ghost predicate StoredOk(st: Stored) {
    && Valid(st.departments) && Valid(st.companies) && Valid(st.contacts) && Valid(st.relations)
    && ContactsRefer(st.companies, st.contacts)
    && RelationsRefer(st.departments, st.companies, st.relations)
  }

  ghost predicate StoredKeeps(a: Stored, b: Stored) {
    && Keeps(a.departments, b.departments) && Keeps(a.companies, b.companies)
    && Keeps(a.contacts, b.contacts) && Keeps(a.relations, b.relations)
  }

  /** Everything marked absent. */
  function AllCleared(f: Facts): Facts {
    Facts(Cleared(f.departments, {}), Cleared(f.companies, {}), Cleared(f.contacts, {}), Cleared(f.relations, {}))
  }

  function Overlaid(f: Facts, g: Facts): Facts {
    Facts(f.departments + g.departments, f.companies + g.companies, f.contacts + g.contacts, f.relations + g.relations)
  }

  /** What a complete snapshot makes of what the tables said: its facts, and absence for the rest. */
  function Published(f: Facts, snapshot: Facts): Facts {
    Facts(Cleared(f.departments + snapshot.departments, snapshot.departments.Keys),
          Cleared(f.companies + snapshot.companies, snapshot.companies.Keys),
          Cleared(f.contacts + snapshot.contacts, snapshot.contacts.Keys),
          Cleared(f.relations + snapshot.relations, snapshot.relations.Keys))
  }

  /** Both publication orders say the same, on every company, department, contact and relation, with
      null activity included. */
  lemma PublicationOrdersAgree(f: Facts, snapshot: Facts)
    ensures Overlaid(AllCleared(f), snapshot) == Published(f, snapshot)
  {
    OrdersAgree(f.departments, snapshot.departments);
    OrdersAgree(f.companies, snapshot.companies);
    OrdersAgree(f.contacts, snapshot.contacts);
    OrdersAgree(f.relations, snapshot.relations);
  }

  // ---- Parents may grow without moving their children ------------------------------------------------

  /** New parents draw ids that no child refers to. */
  ghost predicate Grows<V(!new)>(a: Table<string, V>, b: Table<string, V>) {
    && Valid(a) && Valid(b) && Keeps(a, b) && a.next <= b.next
    && (forall k :: k in b.rows && k !in a.rows ==> b.rows[k].id >= a.next)
  }

  lemma UpsertGrows<V(!new)>(a: Table<string, V>, b: Table<string, V>, k: string, cell: Cell<V>)
    requires Grows(a, b)
    ensures Grows(a, Upsert(b, k, cell))
  {
    UpsertKeeps(b, k, cell);
  }

  lemma GrowsIds<V(!new)>(a: Table<string, V>, b: Table<string, V>)
    requires Grows(a, b)
    ensures Ids(a) <= Ids(b)
    ensures forall k :: k in b.rows && b.rows[k].id in Ids(a) ==> k in a.rows
  {
    forall i | i in Ids(a) ensures i in Ids(b) {
      var k :| k in a.rows && a.rows[k].id == i;
      assert b.rows[k].id == i;
    }
  }

  lemma ContactsUnmoved(m: map<(string, string), Cell<ContactFields>>, a: Table<string, CompanyFields>,
                        b: Table<string, CompanyFields>, contacts: Table<(nat, string), ContactFields>)
    requires Grows(a, b) && ContactsRefer(a, contacts) && ReadsContacts(m, a, contacts)
    ensures ReadsContacts(m, b, contacts) && ContactsRefer(b, contacts)
  {
    GrowsIds(a, b);
    forall e, key ensures Lookup(m, (e, key)) == ContactAt(b, contacts, e, key) {
      assert ContactAt(b, contacts, e, key) == ContactAt(a, contacts, e, key);
    }
  }

  lemma RelationsUnmoved(m: map<(string, string), Cell<()>>,
                         d: Table<string, DepartmentFields>, e: Table<string, DepartmentFields>,
                         a: Table<string, CompanyFields>, b: Table<string, CompanyFields>,
                         relations: Table<(nat, nat), ()>)
    requires Grows(d, e) && Grows(a, b) && RelationsRefer(d, a, relations) && ReadsRelations(m, d, a, relations)
    ensures ReadsRelations(m, e, b, relations) && RelationsRefer(e, b, relations)
  {
    GrowsIds(a, b);
    GrowsIds(d, e);
    forall c, f ensures Lookup(m, (c, f)) == RelationAt(e, b, relations, c, f) {
      assert RelationAt(e, b, relations, c, f) == RelationAt(d, a, relations, c, f);
    }
  }

  // ---- Children -----------------------------------------------------------------------------------------

  lemma ContactUpserted(m: map<(string, string), Cell<ContactFields>>, companies: Table<string, CompanyFields>,
                        contacts: Table<(nat, string), ContactFields>, e: string, key: string, cell: Cell<ContactFields>)
    requires Valid(companies) && Valid(contacts) && e in companies.rows && ContactsRefer(companies, contacts)
    requires ReadsContacts(m, companies, contacts)
    ensures var next := Upsert(contacts, (companies.rows[e].id, key), cell);
            && Valid(next) && Keeps(contacts, next) && ContactsRefer(companies, next)
            && ReadsContacts(m[(e, key) := cell], companies, next)
  {
    var next := Upsert(contacts, (companies.rows[e].id, key), cell);
    UpsertKeeps(contacts, (companies.rows[e].id, key), cell);
    assert companies.rows[e].id in Ids(companies);
    forall d, k ensures Lookup(m[(e, key) := cell], (d, k)) == ContactAt(companies, next, d, k) {
      assert Lookup(m, (d, k)) == ContactAt(companies, contacts, d, k);
    }
  }

  lemma RelationUpserted(m: map<(string, string), Cell<()>>, departments: Table<string, DepartmentFields>,
                         companies: Table<string, CompanyFields>, relations: Table<(nat, nat), ()>,
                         e: string, f: string, cell: Cell<()>)
    requires Valid(departments) && Valid(companies) && Valid(relations) && e in companies.rows && f in departments.rows
    requires RelationsRefer(departments, companies, relations) && ReadsRelations(m, departments, companies, relations)
    ensures var next := Upsert(relations, (companies.rows[e].id, departments.rows[f].id), cell);
            && Valid(next) && Keeps(relations, next) && RelationsRefer(departments, companies, next)
            && ReadsRelations(m[(e, f) := cell], departments, companies, next)
  {
    hide Valid, Keeps, RelationAt;
    var next := Upsert(relations, (companies.rows[e].id, departments.rows[f].id), cell);
    UpsertKeeps(relations, (companies.rows[e].id, departments.rows[f].id), cell);
    assert companies.rows[e].id in Ids(companies) && departments.rows[f].id in Ids(departments);
    forall d, g ensures Lookup(m[(e, f) := cell], (d, g)) == RelationAt(departments, companies, next, d, g) {
      assert Lookup(m, (d, g)) == RelationAt(departments, companies, relations, d, g);
      RelationAtUpserted(departments, companies, relations, e, f, cell, d, g);
    }
  }

  lemma RelationAtUpserted(departments: Table<string, DepartmentFields>, companies: Table<string, CompanyFields>,
                           relations: Table<(nat, nat), ()>, e: string, f: string, cell: Cell<()>, d: string, g: string)
    requires Valid(departments) && Valid(companies) && e in companies.rows && f in departments.rows
    ensures RelationAt(departments, companies,
                       Upsert(relations, (companies.rows[e].id, departments.rows[f].id), cell), d, g) ==
            if d == e && g == f then Some(cell) else RelationAt(departments, companies, relations, d, g)
  {
  }

  /** Marking child rows by their surrogate keys marks them by their names. */
  lemma ContactsMarked(m: map<(string, string), Cell<ContactFields>>, companies: Table<string, CompanyFields>,
                       contacts: Table<(nat, string), ContactFields>,
                       keep: set<(nat, string)>, names: set<(string, string)>)
    requires Valid(contacts) && ContactsRefer(companies, contacts) && ReadsContacts(m, companies, contacts)
    requires forall e, key :: e in companies.rows ==> ((e, key) in names <==> (companies.rows[e].id, key) in keep)
    ensures var next := MarkAbsent(contacts, keep);
            && Valid(next) && Keeps(contacts, next) && ContactsRefer(companies, next)
            && ReadsContacts(Cleared(m, names), companies, next)
  {
    var next := MarkAbsent(contacts, keep);
    MarkKeeps(contacts, keep);
    forall e, key ensures Lookup(Cleared(m, names), (e, key)) == ContactAt(companies, next, e, key) {
      assert Lookup(m, (e, key)) == ContactAt(companies, contacts, e, key);
    }
  }

  lemma RelationsMarked(m: map<(string, string), Cell<()>>, departments: Table<string, DepartmentFields>,
                        companies: Table<string, CompanyFields>, relations: Table<(nat, nat), ()>,
                        keep: set<(nat, nat)>, names: set<(string, string)>)
    requires Valid(relations) && RelationsRefer(departments, companies, relations)
    requires ReadsRelations(m, departments, companies, relations)
    requires forall e, f :: e in companies.rows && f in departments.rows ==>
               ((e, f) in names <==> (companies.rows[e].id, departments.rows[f].id) in keep)
    ensures var next := MarkAbsent(relations, keep);
            && Valid(next) && Keeps(relations, next) && RelationsRefer(departments, companies, next)
            && ReadsRelations(Cleared(m, names), departments, companies, next)
  {
    var next := MarkAbsent(relations, keep);
    MarkKeeps(relations, keep);
    forall e, f ensures Lookup(Cleared(m, names), (e, f)) == RelationAt(departments, companies, next, e, f) {
      assert Lookup(m, (e, f)) == RelationAt(departments, companies, relations, e, f);
    }
  }

  // ---- What the tables say after a publication, row by row ---------------------------------------------

  ghost predicate DepartmentsAsSent(st: Stored, s: Snapshot) {
    forall d :: d in s.departments ==>
      && d.externalId in st.departments.rows
      && var cell := st.departments.rows[d.externalId].cell;
         cell.fields == d.fields && cell.present && cell.active == Some(true)
  }

  /** A company has the activity that the provider sent, unknown included. */
  ghost predicate CompaniesAsSent(st: Stored, s: Snapshot) {
    forall c :: c in s.companies ==>
      && c.externalId in st.companies.rows
      && var cell := st.companies.rows[c.externalId].cell;
         cell.fields == c.fields && cell.present && cell.active == c.active
  }

  /** Contacts are stored under the surrogate id of their company. */
  ghost predicate ContactsAsSent(st: Stored, s: Snapshot) {
    forall c, k :: c in s.companies && k in c.contacts ==>
      && c.externalId in st.companies.rows && (st.companies.rows[c.externalId].id, k.externalKey) in st.contacts.rows
      && var cell := st.contacts.rows[(st.companies.rows[c.externalId].id, k.externalKey)].cell;
         cell.fields == k.fields && cell.present && cell.active == Some(true)
  }

  ghost predicate RelationsAsSent(st: Stored, s: Snapshot) {
    forall c, id :: c in s.companies && id in c.departments ==>
      && c.externalId in st.companies.rows && id in st.departments.rows
      && (st.companies.rows[c.externalId].id, st.departments.rows[id].id) in st.relations.rows
      && var cell := st.relations.rows[(st.companies.rows[c.externalId].id, st.departments.rows[id].id)].cell;
         cell.present && cell.active == Some(true)
  }

  /** Everything that was sent is there as it was sent. */
  ghost predicate AsSent(st: Stored, s: Snapshot) {
    DepartmentsAsSent(st, s) && CompaniesAsSent(st, s) && ContactsAsSent(st, s) && RelationsAsSent(st, s)
  }

  /** A row that was not sent keeps its fields. It is neither present nor active, and untouched if it was so before. */
  ghost predicate Retired<V>(before: Cell<V>, after: Cell<V>) {
    && after.fields == before.fields && !after.present && after.active != Some(true)
    && (!before.present && before.active != Some(true) ==> after == before)
    && (before.present || before.active == Some(true) ==> after.active == Some(false))
  }

  ghost predicate OthersRetired<K(!new), V>(before: map<K, Cell<V>>, after: map<K, Cell<V>>, sent: set<K>) {
    && after.Keys == before.Keys + sent
    && forall k :: k in before && k !in sent ==> Retired(before[k], after[k])
  }

  function SentDepartments(s: Snapshot): set<string> { set d | d in s.departments :: d.externalId }

  function SentCompanies(s: Snapshot): set<string> { set c | c in s.companies :: c.externalId }

  function SentContacts(s: Snapshot): set<(string, string)> {
    set c, k | c in s.companies && k in c.contacts :: (c.externalId, k.externalKey)
  }

  function SentRelations(s: Snapshot): set<(string, string)> {
    set c, id | c in s.companies && id in c.departments :: (c.externalId, id)
  }

  /** `after` is `before` with everything that was not sent retired, and nothing else that is new. */
  ghost predicate RestRetired(before: Facts, after: Facts, s: Snapshot) {
    && OthersRetired(before.departments, after.departments, SentDepartments(s))
    && OthersRetired(before.companies, after.companies, SentCompanies(s))
    && OthersRetired(before.contacts, after.contacts, SentContacts(s))
    && OthersRetired(before.relations, after.relations, SentRelations(s))
  }

  /** The tables say what was sent, and what they said before of the rest, retired. */
  ghost predicate PublishedAsSent(before: Facts, st: Stored, s: Snapshot) {
    AsSent(st, s) && exists after :: Reads(after, st) && RestRetired(before, after, s)
  }

  lemma PublishedAt<K(!new), V(!new)>(stored: map<K, Cell<V>>, items: seq<Item<K, V>>, x: Item<K, V>)
    requires Consistent(items) && x in items
    ensures var m := Cleared(stored + Overlay(items), Overlay(items).Keys); x.key in m && m[x.key] == x.cell
  {
    OverlayMeaning(items);
  }

  lemma OthersPublished<K(!new), V(!new)>(stored: map<K, Cell<V>>, items: seq<Item<K, V>>, sent: set<K>)
    requires Consistent(items) && forall k :: k in sent <==> exists x :: x in items && x.key == k
    ensures OthersRetired(stored, Cleared(stored + Overlay(items), Overlay(items).Keys), sent)
  {
    OverlayMeaning(items);
    forall k ensures k in Overlay(items) <==> k in sent {
      if k in sent { var x :| x in items && x.key == k; }
    }
  }

  lemma DepartmentsPublished(f: Facts, s: Snapshot, st: Stored)
    requires Validate(s).None? && Cells(st.departments) == Published(f, FactsOf(s)).departments
    ensures DepartmentsAsSent(st, s)
    ensures OthersRetired(f.departments, Published(f, FactsOf(s)).departments, SentDepartments(s))
  {
    var items := DepartmentItems(s.departments);
    DepartmentItemsConsistent(s.departments);
    forall d | d in s.departments
      ensures d.externalId in Cells(st.departments) && Cells(st.departments)[d.externalId] == Cell(d.fields, true, Some(true))
    {
      DepartmentItemsMeaning(s.departments, DepartmentItem(d));
      PublishedAt(f.departments, items, DepartmentItem(d));
    }
    forall k ensures k in SentDepartments(s) <==> exists x :: x in items && x.key == k {
      if d :| d in s.departments && d.externalId == k {
        DepartmentItemsMeaning(s.departments, DepartmentItem(d));
        assert DepartmentItem(d).key == k;
      }
      if x :| x in items && x.key == k { DepartmentItemsMeaning(s.departments, x); }
    }
    OthersPublished(f.departments, items, SentDepartments(s));
  }

  lemma CompaniesPublished(f: Facts, s: Snapshot, st: Stored)
    requires Validate(s).None? && Cells(st.companies) == Published(f, FactsOf(s)).companies
    ensures CompaniesAsSent(st, s)
    ensures OthersRetired(f.companies, Published(f, FactsOf(s)).companies, SentCompanies(s))
  {
    var items := CompanyItems(s.companies);
    CompanyItemsConsistent(s);
    forall c | c in s.companies
      ensures c.externalId in Cells(st.companies) && Cells(st.companies)[c.externalId] == Cell(c.fields, true, c.active)
    {
      CompanyItemsMeaning(s.companies, CompanyItem(c));
      PublishedAt(f.companies, items, CompanyItem(c));
    }
    forall k ensures k in SentCompanies(s) <==> exists x :: x in items && x.key == k {
      if c :| c in s.companies && c.externalId == k {
        CompanyItemsMeaning(s.companies, CompanyItem(c));
        assert CompanyItem(c).key == k;
      }
      if x :| x in items && x.key == k { CompanyItemsMeaning(s.companies, x); }
    }
    OthersPublished(f.companies, items, SentCompanies(s));
  }

  lemma ContactsPublished(f: Facts, s: Snapshot, st: Stored)
    requires Validate(s).None? && ReadsContacts(Published(f, FactsOf(s)).contacts, st.companies, st.contacts)
    ensures ContactsAsSent(st, s)
    ensures OthersRetired(f.contacts, Published(f, FactsOf(s)).contacts, SentContacts(s))
  {
    var m, items := Published(f, FactsOf(s)).contacts, ContactItems(s.companies);
    ContactItemsConsistent(s);
    forall c, k | c in s.companies && k in c.contacts
      ensures ContactAt(st.companies, st.contacts, c.externalId, k.externalKey) == Some(Cell(k.fields, true, Some(true)))
    {
      var x := ContactItem(c.externalId, k);
      ContactItemsMeaning(s.companies, x);
      PublishedAt(f.contacts, items, x);
      assert Lookup(m, (c.externalId, k.externalKey)) == Some(x.cell);
    }
    forall p ensures p in SentContacts(s) <==> exists x :: x in items && x.key == p {
      if c, k :| c in s.companies && k in c.contacts && (c.externalId, k.externalKey) == p {
        ContactItemsMeaning(s.companies, ContactItem(c.externalId, k));
        assert ContactItem(c.externalId, k).key == p;
      }
      if x :| x in items && x.key == p { ContactItemsMeaning(s.companies, x); }
    }
    OthersPublished(f.contacts, items, SentContacts(s));
  }

  lemma RelationsPublished(f: Facts, s: Snapshot, st: Stored)
    requires Validate(s).None?
    requires ReadsRelations(Published(f, FactsOf(s)).relations, st.departments, st.companies, st.relations)
    ensures RelationsAsSent(st, s)
    ensures OthersRetired(f.relations, Published(f, FactsOf(s)).relations, SentRelations(s))
  {
    var m, items := Published(f, FactsOf(s)).relations, RelationItems(s.companies);
    RelationItemsConsistent(s.companies);
    forall c, id | c in s.companies && id in c.departments
      ensures RelationAt(st.departments, st.companies, st.relations, c.externalId, id) == Some(Cell((), true, Some(true)))
    {
      var x := RelationItem(c.externalId, id);
      RelationItemsMeaning(s.companies, x);
      PublishedAt(f.relations, items, x);
      assert Lookup(m, (c.externalId, id)) == Some(x.cell);
    }
    forall p ensures p in SentRelations(s) <==> exists x :: x in items && x.key == p {
      if c, id :| c in s.companies && id in c.departments && (c.externalId, id) == p {
        RelationItemsMeaning(s.companies, RelationItem(c.externalId, id));
        assert RelationItem(c.externalId, id).key == p;
      }
      if x :| x in items && x.key == p { RelationItemsMeaning(s.companies, x); }
    }
    OthersPublished(f.relations, items, SentRelations(s));
  }

  /** What a publication leaves: every department, company, contact and relation as it was sent, present and
      active, a company with its own activity; and every other row retired. */
  lemma PublicationMeaning(f: Facts, s: Snapshot, st: Stored)
    requires Validate(s).None? && Reads(Published(f, FactsOf(s)), st)
    ensures PublishedAsSent(f, st, s)
  {
    hide DepartmentsAsSent, CompaniesAsSent, ContactsAsSent, RelationsAsSent, OthersRetired;
    DepartmentsPublished(f, s, st);
    CompaniesPublished(f, s, st);
    ContactsPublished(f, s, st);
    RelationsPublished(f, s, st);
    assert RestRetired(f, Published(f, FactsOf(s)), s);
  }
}
