/** Publication in place: `_publish_snapshot` and `_apply_directory_delta`, statement by statement. */
module DirectoryRepository {
  import opened Common
  import opened Tables
  import opened Directory
  import opened DirectoryStore

  ghost predicate ContactsMatch(names: set<(string, string)>, keep: set<(nat, string)>,
                                companies: Table<string, CompanyFields>) {
    forall e, key :: e in companies.rows ==> ((e, key) in names <==> (companies.rows[e].id, key) in keep)
  }

  ghost predicate RelationsMatch(names: set<(string, string)>, keep: set<(nat, nat)>,
                                 departments: Table<string, DepartmentFields>, companies: Table<string, CompanyFields>) {
    forall e, f :: e in companies.rows && f in departments.rows ==>
      ((e, f) in names <==> (companies.rows[e].id, departments.rows[f].id) in keep)
  }

  /** `ids` are the surrogate ids of exactly the given keys. */
  ghost predicate IdsOf<V(!new)>(ids: map<string, nat>, t: Table<string, V>, keys: set<string>) {
    ids.Keys == keys && forall k :: k in ids ==> k in t.rows && ids[k] == t.rows[k].id
  }

  function FlaggedRows<K, V>(t: Table<K, V>): set<K> { set k | k in t.rows && Flagged(t.rows[k].cell) }

  function RowsWithIds<K, V>(t: Table<K, V>, ids: set<nat>): set<K> { set k | k in t.rows && t.rows[k].id in ids }

  /** The rows whose ids were returned by the upserts are the rows of the snapshot. */
  lemma RowsOfIds<V(!new)>(t: Table<string, V>, ids: map<string, nat>, keys: set<string>)
    requires Valid(t) && IdsOf(ids, t, keys)
    ensures RowsWithIds(t, ids.Values) == keys
  {
    forall k | k in keys ensures k in RowsWithIds(t, ids.Values) { assert ids[k] in ids.Values; }
    forall k | k in RowsWithIds(t, ids.Values) ensures k in keys {
      var j :| j in ids && ids[j] == t.rows[k].id;
    }
  }

  lemma ContactNamed(names: set<(string, string)>, keep: set<(nat, string)>,
                     companies: Table<string, CompanyFields>, e: string, key: string)
    requires Valid(companies) && e in companies.rows && ContactsMatch(names, keep, companies)
    ensures ContactsMatch(names + {(e, key)}, keep + {(companies.rows[e].id, key)}, companies)
  {
  }

  lemma RelationNamed(names: set<(string, string)>, keep: set<(nat, nat)>, departments: Table<string, DepartmentFields>,
                      companies: Table<string, CompanyFields>, e: string, f: string)
    requires Valid(departments) && Valid(companies) && e in companies.rows && f in departments.rows
    requires RelationsMatch(names, keep, departments, companies)
    ensures RelationsMatch(names + {(e, f)}, keep + {(companies.rows[e].id, departments.rows[f].id)}, departments, companies)
  {
  }

  // ---- One turn of each loop ------------------------------------------------------------------------

  /** `now` is `before` with the cells of `over`, and `ids` are the ids that the upserts returned. */
  ghost predicate ParentsDone<V(!new)>(before: Table<string, V>, now: Table<string, V>, ids: map<string, nat>,
                                       over: map<string, Cell<V>>) {
    && Grows(before, now)
    && Cells(now) == Cells(before) + over
    && IdsOf(ids, now, over.Keys)
  }

  lemma ParentStep<V(!new)>(before: Table<string, V>, now: Table<string, V>, ids: map<string, nat>,
                            over: map<string, Cell<V>>, x: Item<string, V>)
    requires ParentsDone(before, now, ids, over)
    ensures var next := Upsert(now, x.key, x.cell);
            ParentsDone(before, next, ids[x.key := next.rows[x.key].id], over[x.key := x.cell])
  {
    UpsertGrows(before, now, x.key, x.cell);
    CellsStep(Cells(before), now, over, x);
    IdsStep(now, ids, over, x);
  }

  lemma IdsStep<V(!new)>(now: Table<string, V>, ids: map<string, nat>, over: map<string, Cell<V>>, x: Item<string, V>)
    requires IdsOf(ids, now, over.Keys)
    ensures var next := Upsert(now, x.key, x.cell);
            IdsOf(ids[x.key := next.rows[x.key].id], next, over[x.key := x.cell].Keys)
  {
    assert over[x.key := x.cell].Keys == over.Keys + {x.key};
  }

  lemma UpdateRight<K, V>(a: map<K, V>, b: map<K, V>, k: K, v: V)
    ensures (a + b)[k := v] == a + b[k := v]
  {
  }

  lemma CellsStep<V(!new)>(before: map<string, Cell<V>>, now: Table<string, V>, over: map<string, Cell<V>>,
                           x: Item<string, V>)
    requires Valid(now) && Cells(now) == before + over
    ensures Cells(Upsert(now, x.key, x.cell)) == before + over[x.key := x.cell]
  {
    UpsertKeeps(now, x.key, x.cell);
    UpdateRight(before, over, x.key, x.cell);
  }

  /** The contacts table after the items of company `e`; `seen` are the surrogate keys of `names`. */
  ghost predicate ContactsDone(companies: Table<string, CompanyFields>, before: Table<(nat, string), ContactFields>,
                               now: Table<(nat, string), ContactFields>, m: map<(string, string), Cell<ContactFields>>,
                               names: set<(string, string)>, seen: set<(nat, string)>) {
    && Valid(companies) && Valid(now) && ContactsRefer(companies, now) && Keeps(before, now)
    && ReadsContacts(m, companies, now) && ContactsMatch(names, seen, companies)
  }

  lemma ContactStep(companies: Table<string, CompanyFields>, before: Table<(nat, string), ContactFields>,
                    now: Table<(nat, string), ContactFields>, m: map<(string, string), Cell<ContactFields>>,
                    names: set<(string, string)>, seen: set<(nat, string)>, e: string, k: Contact)
    requires ContactsDone(companies, before, now, m, names, seen) && e in companies.rows
    ensures var x, key := ContactItem(e, k), (companies.rows[e].id, k.externalKey);
            ContactsDone(companies, before, Upsert(now, key, x.cell), m[x.key := x.cell], names + {x.key}, seen + {key})
  {
    ContactUpserted(m, companies, now, e, k.externalKey, Live(k.fields));
    ContactNamed(names, seen, companies, e, k.externalKey);
  }

  ghost predicate RelationsDone(departments: Table<string, DepartmentFields>, companies: Table<string, CompanyFields>,
                                before: Table<(nat, nat), ()>, now: Table<(nat, nat), ()>,
                                m: map<(string, string), Cell<()>>, names: set<(string, string)>, seen: set<(nat, nat)>) {
    && Valid(departments) && Valid(companies) && Valid(now) && RelationsRefer(departments, companies, now)
    && Keeps(before, now)
    && ReadsRelations(m, departments, companies, now) && RelationsMatch(names, seen, departments, companies)
  }

  lemma RelationStep(departments: Table<string, DepartmentFields>, companies: Table<string, CompanyFields>,
                     before: Table<(nat, nat), ()>, now: Table<(nat, nat), ()>,
                     m: map<(string, string), Cell<()>>, names: set<(string, string)>, seen: set<(nat, nat)>,
                     e: string, f: string)
    requires RelationsDone(departments, companies, before, now, m, names, seen)
    requires e in companies.rows && f in departments.rows
    ensures var key := (companies.rows[e].id, departments.rows[f].id);
            RelationsDone(departments, companies, before, Upsert(now, key, Live(())), m[(e, f) := Live(())],
                          names + {(e, f)}, seen + {key})
  {
    RelationUpserted(m, departments, companies, now, e, f, Live(()));
    RelationNamed(names, seen, departments, companies, e, f);
  }

  lemma OverlayStep<K(!new), V(!new)>(m: map<K, Cell<V>>, names: set<K>, items: seq<Item<K, V>>, x: Item<K, V>)
    ensures (m + Overlay(items))[x.key := x.cell] == m + Overlay(items + [x])
    ensures names + Overlay(items).Keys + {x.key} == names + Overlay(items + [x]).Keys
  {
    OverlayAppend(items, x);
  }

  lemma {:induction false} OverlaysJoin<K, V>(a: seq<Item<K, V>>, b: seq<Item<K, V>>)
    ensures Overlay(a) + Overlay(b) == Overlay(a + b)
    decreases |b|
  {
    if b == [] {
      assert a + b == a;
    } else {
      OverlaysJoin(a, b[..|b| - 1]);
      assert (a + b)[..|a + b| - 1] == a + b[..|b| - 1];
    }
  }

  lemma OverlayConcat<K(!new), V(!new)>(m: map<K, Cell<V>>, a: seq<Item<K, V>>, b: seq<Item<K, V>>)
    ensures m + Overlay(a) + Overlay(b) == m + Overlay(a + b)
    ensures Overlay(a).Keys + Overlay(b).Keys == Overlay(a + b).Keys
  {
    hide Overlay;
    OverlaysJoin(a, b);
  }

  /** The companies of a valid snapshot find their own ids and those of their departments. */
  ghost predicate Children(cs: seq<Company>, companyIds: map<string, nat>, departmentIds: map<string, nat>) {
    forall c :: c in cs ==> c.externalId in companyIds && forall f :: f in c.departments ==> f in departmentIds
  }

  lemma SnapshotChildren(s: Snapshot, t: Snapshot, companyIds: map<string, nat>, departmentIds: map<string, nat>)
    requires Validate(s).None? && (t == s || t == Sorted(s))
    requires companyIds.Keys == FactsOf(t).companies.Keys && departmentIds.Keys == FactsOf(t).departments.Keys
    ensures Children(t.companies, companyIds, departmentIds)
  {
    SortingKeepsFacts(s);
    DepartmentKeysMeaning(s.departments);
    forall c | c in t.companies
      ensures c.externalId in companyIds && forall f :: f in c.departments ==> f in departmentIds
    {
      CompanyItemsMeaning(t.companies, CompanyItem(c));
      OverlayHas(CompanyItems(t.companies), CompanyItem(c));
      if t == Sorted(s) {
        SortedCompaniesElements(s.companies, c);
        var d :| d in s.companies && c == SortedCompany(d);
        SortedChildren(d);
        assert Parented(d, DepartmentKeys(s.departments));
      }
    }
  }

  lemma {:induction false} OverlayHas<K, V>(items: seq<Item<K, V>>, x: Item<K, V>)
    requires x in items
    ensures x.key in Overlay(items)
  {
    if items[|items| - 1] != x {
      assert items == items[..|items| - 1] + [items[|items| - 1]];
      OverlayHas(items[..|items| - 1], x);
    }
  }

  lemma DepartmentKeysMeaning(ds: seq<Department>)
    ensures forall id :: id in DepartmentKeys(ds) ==> id in Overlay(DepartmentItems(ds))
  {
    forall id | id in DepartmentKeys(ds) ensures id in Overlay(DepartmentItems(ds)) {
      var i :| 0 <= i < |ds| && DepartmentKeys(ds)[i] == id;
      assert DepartmentItems(ds)[i] == DepartmentItem(ds[i]);
      OverlayHas(DepartmentItems(ds), DepartmentItem(ds[i]));
    }
  }

  /** After the parents grew, the children read as before. */
  lemma ParentsGrown(f: Facts, a: Stored, b: Stored)
    requires StoredOk(a) && Reads(f, a)
    requires Grows(a.departments, b.departments) && Grows(a.companies, b.companies)
    requires b.contacts == a.contacts && b.relations == a.relations
    ensures ContactsDone(b.companies, b.contacts, b.contacts, f.contacts, {}, {})
    ensures RelationsDone(b.departments, b.companies, b.relations, b.relations, f.relations, {}, {})
  {
    ContactsUnmoved(f.contacts, a.companies, b.companies, a.contacts);
    RelationsUnmoved(f.relations, a.departments, b.departments, a.companies, b.companies, a.relations);
  }

  /** Marking parents absent does not move their children. */
  lemma ChildrenUnmoved(f: Facts, a: Stored, b: Stored)
    requires StoredOk(a) && Reads(f, a)
    requires Valid(b.departments) && Valid(b.companies)
    requires Keeps(a.departments, b.departments) && Keeps(a.companies, b.companies)
    requires b.departments.rows.Keys == a.departments.rows.Keys && b.companies.rows.Keys == a.companies.rows.Keys
    requires b.departments.next == a.departments.next && b.companies.next == a.companies.next
    requires b.contacts == a.contacts && b.relations == a.relations
    ensures StoredOk(b)
    ensures ReadsContacts(f.contacts, b.companies, b.contacts)
    ensures ReadsRelations(f.relations, b.departments, b.companies, b.relations)
  {
    ContactsUnmoved(f.contacts, a.companies, b.companies, a.contacts);
    RelationsUnmoved(f.relations, a.departments, b.departments, a.companies, b.companies, a.relations);
  }

  /** The rows that marking everything absent touches. */
  function Inactivated(st: Stored): nat {
    |FlaggedRows(st.contacts)| + |FlaggedRows(st.relations)| + |FlaggedRows(st.companies)| + |FlaggedRows(st.departments)|
  }

  function Touched<K, V(==)>(t: Table<K, V>): set<K> { set k | k in t.rows && Absent(t.rows[k].cell) != t.rows[k].cell }

  /** The count of a publication is the number of rows that its blanket updates alter. */
  lemma InactivatedMeaning(st: Stored)
    ensures Inactivated(st) ==
            |Touched(st.departments)| + |Touched(st.companies)| + |Touched(st.contacts)| + |Touched(st.relations)|
  {
    assert FlaggedRows(st.departments) == Touched(st.departments);
    assert FlaggedRows(st.companies) == Touched(st.companies);
    assert FlaggedRows(st.contacts) == Touched(st.contacts);
    assert FlaggedRows(st.relations) == Touched(st.relations);
  }

  lemma KeptThrough(a: Stored, b: Stored, c: Stored)
    requires StoredKeeps(a, b) && StoredKeeps(b, c)
    ensures StoredKeeps(a, c)
  {
  }

  /** What the upserts return: surrogate ids of the parents, and surrogate keys of the children. */
  datatype Upserted = Upserted(departments: map<string, nat>, companies: map<string, nat>,
                               contacts: set<(nat, string)>, relations: set<(nat, nat)>)

  ghost predicate UpsertedOf(ids: Upserted, st: Stored, snapshot: Facts) {
    && IdsOf(ids.departments, st.departments, snapshot.departments.Keys)
    && IdsOf(ids.companies, st.companies, snapshot.companies.Keys)
    && ContactsMatch(snapshot.contacts.Keys, ids.contacts, st.companies)
    && RelationsMatch(snapshot.relations.Keys, ids.relations, st.departments, st.companies)
  }

  ghost predicate SnapshotDone(a: Stored, b: Stored, f: Facts, snapshot: Facts, ids: Upserted) {
    && StoredOk(b) && StoredKeeps(a, b) && Reads(Overlaid(f, snapshot), b) && UpsertedOf(ids, b, snapshot)
  }

  lemma ParentsParts<V(!new)>(before: Table<string, V>, now: Table<string, V>, ids: map<string, nat>, over: map<string, Cell<V>>)
    requires ParentsDone(before, now, ids, over)
    ensures Grows(before, now) && Valid(now) && IdsOf(ids, now, ids.Keys) && ids.Keys == over.Keys
  {
  }

  lemma SnapshotAssembled(a: Stored, b: Stored, f: Facts, snapshot: Facts, ids: Upserted)
    requires StoredOk(a) && Reads(f, a)
    requires ParentsDone(a.departments, b.departments, ids.departments, snapshot.departments)
    requires ParentsDone(a.companies, b.companies, ids.companies, snapshot.companies)
    requires ContactsDone(b.companies, a.contacts, b.contacts, f.contacts + snapshot.contacts, snapshot.contacts.Keys, ids.contacts)
    requires RelationsDone(b.departments, b.companies, a.relations, b.relations, f.relations + snapshot.relations,
                           snapshot.relations.Keys, ids.relations)
    ensures SnapshotDone(a, b, f, snapshot, ids)
  {
  }

  class Repository {
    var departments: Table<string, DepartmentFields>
    var companies: Table<string, CompanyFields>
    var contacts: Table<(nat, string), ContactFields>
    var relations: Table<(nat, nat), ()>

    function State(): Stored reads this { Stored(departments, companies, contacts, relations) }

    constructor ()
      ensures StoredOk(State()) && Reads(Facts(map[], map[], map[], map[]), State())
    {
      departments, companies := Table(map[], 1), Table(map[], 1);
      contacts, relations := Table(map[], 1), Table(map[], 1);
    }

    method UpsertDepartments(ds: seq<Department>) returns (ids: map<string, nat>)
      requires Valid(departments)
      modifies this`departments
      ensures ParentsDone(old(departments), departments, ids, Overlay(DepartmentItems(ds)))
    {
      ids := map[];
      for i := 0 to |ds|
        invariant ParentsDone(old(departments), departments, ids, Overlay(DepartmentItems(ds[..i])))
      {
        var item := DepartmentItem(ds[i]);
        assert DepartmentItems(ds[..i + 1]) == DepartmentItems(ds[..i]) + [item];
        OverlayAppend(DepartmentItems(ds[..i]), item);
        ParentStep(old(departments), departments, ids, Overlay(DepartmentItems(ds[..i])), item);
        departments := Upsert(departments, item.key, item.cell);
        ids := ids[item.key := departments.rows[item.key].id];
      }
      assert ds[..|ds|] == ds;
    }

    method UpsertCompanies(cs: seq<Company>) returns (ids: map<string, nat>)
      requires Valid(companies)
      modifies this`companies
      ensures ParentsDone(old(companies), companies, ids, Overlay(CompanyItems(cs)))
    {
      ids := map[];
      for i := 0 to |cs|
        invariant ParentsDone(old(companies), companies, ids, Overlay(CompanyItems(cs[..i])))
      {
        var item := CompanyItem(cs[i]);
        assert CompanyItems(cs[..i + 1]) == CompanyItems(cs[..i]) + [item];
        OverlayAppend(CompanyItems(cs[..i]), item);
        ParentStep(old(companies), companies, ids, Overlay(CompanyItems(cs[..i])), item);
        companies := Upsert(companies, item.key, item.cell);
        ids := ids[item.key := companies.rows[item.key].id];
      }
      assert cs[..|cs|] == cs;
    }

    /** The contacts of one company. `seen` collects the surrogate keys that were upserted. */
    method UpsertContacts(e: string, id: nat, ks: seq<Contact>, seen: set<(nat, string)>,
                          ghost before: Table<(nat, string), ContactFields>,
                          ghost m: map<(string, string), Cell<ContactFields>>, ghost names: set<(string, string)>)
      returns (all: set<(nat, string)>)
      requires e in companies.rows && id == companies.rows[e].id
      requires ContactsDone(companies, before, contacts, m, names, seen)
      modifies this`contacts
      ensures var over := Overlay(ContactsOf(e, ks));
              ContactsDone(companies, before, contacts, m + over, names + over.Keys, all)
    {
      hide ContactsDone;
      all := seen;
      ghost var items := [];
      assert m + Overlay(items) == m && names + Overlay(items).Keys == names;
      for i := 0 to |ks|
        invariant items == ContactsOf(e, ks[..i])
        invariant ContactsDone(companies, before, contacts, m + Overlay(items), names + Overlay(items).Keys, all)
      {
        var item := ContactItem(e, ks[i]);
        ContactStep(companies, before, contacts, m + Overlay(items), names + Overlay(items).Keys, all, e, ks[i]);
        OverlayStep(m, names, items, item);
        contacts := Upsert(contacts, (id, ks[i].externalKey), item.cell);
        all := all + {(id, ks[i].externalKey)};
        assert ContactsOf(e, ks[..i + 1]) == items + [item];
        items := items + [item];
      }
      assert ks[..|ks|] == ks;
    }

    method UpsertRelations(e: string, id: nat, parents: seq<string>, departmentIds: map<string, nat>,
                           seen: set<(nat, nat)>, ghost before: Table<(nat, nat), ()>,
                           ghost m: map<(string, string), Cell<()>>,
                           ghost names: set<(string, string)>)
      returns (all: set<(nat, nat)>)
      requires e in companies.rows && id == companies.rows[e].id
      requires forall f :: f in parents ==> f in departmentIds
      requires IdsOf(departmentIds, departments, departmentIds.Keys)
      requires RelationsDone(departments, companies, before, relations, m, names, seen)
      modifies this`relations
      ensures var over := Overlay(RelationsOf(e, parents));
              RelationsDone(departments, companies, before, relations, m + over, names + over.Keys, all)
    {
      hide RelationsDone;
      all := seen;
      ghost var items := [];
      assert m + Overlay(items) == m && names + Overlay(items).Keys == names;
      for i := 0 to |parents|
        invariant items == RelationsOf(e, parents[..i])
        invariant RelationsDone(departments, companies, before, relations,
                                m + Overlay(items), names + Overlay(items).Keys, all)
      {
        var f := parents[i];
        assert f in departments.rows && departmentIds[f] == departments.rows[f].id;
        RelationStep(departments, companies, before, relations,
                     m + Overlay(items), names + Overlay(items).Keys, all, e, f);
        OverlayStep(m, names, items, RelationItem(e, f));
        relations := Upsert(relations, (id, departmentIds[f]), Live(()));
        all := all + {(id, departmentIds[f])};
        assert RelationsOf(e, parents[..i + 1]) == items + [RelationItem(e, f)];
        items := items + [RelationItem(e, f)];
      }
      assert parents[..|parents|] == parents;
    }

    /** The children of every company, in the given order. */
    method UpsertChildren(cs: seq<Company>, companyIds: map<string, nat>, departmentIds: map<string, nat>,
                          ghost m: map<(string, string), Cell<ContactFields>>, ghost r: map<(string, string), Cell<()>>)
      returns (seenContacts: set<(nat, string)>, seenRelations: set<(nat, nat)>)
      requires Children(cs, companyIds, departmentIds)
      requires IdsOf(companyIds, companies, companyIds.Keys) && IdsOf(departmentIds, departments, departmentIds.Keys)
      requires ContactsDone(companies, contacts, contacts, m, {}, {})
      requires RelationsDone(departments, companies, relations, relations, r, {}, {})
      modifies this`contacts, this`relations
      ensures var over := Overlay(ContactItems(cs));
              ContactsDone(companies, old(contacts), contacts, m + over, over.Keys, seenContacts)
      ensures var over := Overlay(RelationItems(cs));
              RelationsDone(departments, companies, old(relations), relations, r + over, over.Keys, seenRelations)
    {
      hide ContactsDone, RelationsDone;
      seenContacts, seenRelations := {}, {};
      ghost var ks, rs := [], [];
      assert m + Overlay(ks) == m && Overlay(ks).Keys == {} && r + Overlay(rs) == r && Overlay(rs).Keys == {};
      for i := 0 to |cs|
        invariant ks == ContactItems(cs[..i]) && rs == RelationItems(cs[..i])
        invariant ContactsDone(companies, old(contacts), contacts, m + Overlay(ks), Overlay(ks).Keys, seenContacts)
        invariant RelationsDone(departments, companies, old(relations), relations,
                                r + Overlay(rs), Overlay(rs).Keys, seenRelations)
      {
        var c := cs[i];
        assert cs[..i + 1][..i] == cs[..i];
        assert c in cs;
        var id := companyIds[c.externalId];
        OverlayConcat(m, ks, ContactsOf(c.externalId, c.contacts));
        OverlayConcat(r, rs, RelationsOf(c.externalId, c.departments));
        seenContacts := UpsertContacts(c.externalId, id, c.contacts, seenContacts, old(contacts), m + Overlay(ks), Overlay(ks).Keys);
        seenRelations := UpsertRelations(c.externalId, id, c.departments, departmentIds, seenRelations, old(relations),
                                         r + Overlay(rs), Overlay(rs).Keys);
        ks, rs := ks + ContactsOf(c.externalId, c.contacts), rs + RelationsOf(c.externalId, c.departments);
      }
      assert cs[..|cs|] == cs;
    }

    /** `_publish_snapshot`: everything is marked absent, then the snapshot is upserted. `f` is what the
        tables said before. */
    method PublishSnapshot(s: Snapshot, ghost f: Facts) returns (result: Result<nat, string>)
      requires StoredOk(State()) && Reads(f, State())
      modifies this
      ensures Validate(s).Some? ==> result == Err(Validate(s).value) && State() == old(State())
      ensures Validate(s).None? ==>
                && StoredOk(State()) && StoredKeeps(old(State()), State())
                && Reads(Overlaid(AllCleared(f), FactsOf(s)), State()) && PublishedAsSent(f, State(), s)
                && result == Ok(Inactivated(old(State())))
    {
      hide PublishedAsSent;
      var error := Validate(s);
      if error.Some? {
        return Err(error.value);
      }
      var inactivated := MarkEverythingAbsent(f);
      ghost var cleared := State();
      var ids := UpsertSnapshot(s, s, AllCleared(f));
      KeptThrough(old(State()), cleared, State());
      PublicationOrdersAgree(f, FactsOf(s));
      PublicationMeaning(f, s, State());
      result := Ok(inactivated);
    }

    /** The upserts of a snapshot, in the order of `t`: departments, companies, then their children. Both
        publications make the same statements here. */
    method UpsertSnapshot(t: Snapshot, ghost s: Snapshot, ghost f: Facts) returns (ids: Upserted)
      requires Validate(s).None? && (t == s || t == Sorted(s))
      requires StoredOk(State()) && Reads(f, State())
      modifies this
      ensures SnapshotDone(old(State()), State(), f, FactsOf(t), ids)
    {
      hide SnapshotDone, ContactsDone, RelationsDone, Children, Reads, Sorted, ParentsDone, Grows, IdsOf, Keeps, Cells, Overlay;
      var departmentIds := UpsertDepartments(t.departments);
      var companyIds := UpsertCompanies(t.companies);
      ParentsParts(old(departments), departments, departmentIds, FactsOf(t).departments);
      ParentsParts(old(companies), companies, companyIds, FactsOf(t).companies);
      SnapshotChildren(s, t, companyIds, departmentIds);
      ghost var grown := State();
      ParentsGrown(f, old(State()), grown);
      var seenContacts, seenRelations := UpsertChildren(t.companies, companyIds, departmentIds, f.contacts, f.relations);
      ids := Upserted(departmentIds, companyIds, seenContacts, seenRelations);
      SnapshotAssembled(old(State()), State(), f, FactsOf(t), ids);
    }

    /** The four blanket updates; the result counts the rows they returned. */
    method MarkEverythingAbsent(ghost f: Facts) returns (inactivated: nat)
      requires StoredOk(State()) && Reads(f, State())
      modifies this
      ensures inactivated == Inactivated(old(State()))
      ensures StoredOk(State()) && StoredKeeps(old(State()), State()) && Reads(AllCleared(f), State())
    {
      inactivated := |FlaggedRows(contacts)| + |FlaggedRows(relations)|
                     + |FlaggedRows(companies)| + |FlaggedRows(departments)|;
      MarkChildren({}, {}, f, {}, {});
      ghost var middle := State();
      MarkParents({}, {}, f.(contacts := Cleared(f.contacts, {}), relations := Cleared(f.relations, {})));
      KeptThrough(old(State()), middle, State());
    }

    method MarkChildren(keepContacts: set<(nat, string)>, keepRelations: set<(nat, nat)>, ghost f: Facts,
                        ghost contactNames: set<(string, string)>, ghost relationNames: set<(string, string)>)
      requires StoredOk(State()) && Reads(f, State())
      requires ContactsMatch(contactNames, keepContacts, companies)
      requires RelationsMatch(relationNames, keepRelations, departments, companies)
      modifies this`contacts, this`relations
      ensures StoredOk(State()) && StoredKeeps(old(State()), State())
      ensures Reads(f.(contacts := Cleared(f.contacts, contactNames), relations := Cleared(f.relations, relationNames)),
                    State())
    {
      ContactsMarked(f.contacts, companies, contacts, keepContacts, contactNames);
      RelationsMarked(f.relations, departments, companies, relations, keepRelations, relationNames);
      contacts := MarkAbsent(contacts, keepContacts);
      relations := MarkAbsent(relations, keepRelations);
    }

    method MarkParents(keepDepartments: set<string>, keepCompanies: set<string>, ghost f: Facts)
      requires StoredOk(State()) && Reads(f, State())
      modifies this`departments, this`companies
      ensures StoredOk(State()) && StoredKeeps(old(State()), State())
      ensures Reads(f.(departments := Cleared(f.departments, keepDepartments), companies := Cleared(f.companies, keepCompanies)),
                    State())
    {
      MarkKeeps(companies, keepCompanies);
      MarkKeeps(departments, keepDepartments);
      companies := MarkAbsent(companies, keepCompanies);
      departments := MarkAbsent(departments, keepDepartments);
      ChildrenUnmoved(f, old(State()), State());
    }

    /** `_apply_directory_delta`, after the validation that precedes it: the snapshot is upserted in sorted
        order, then the rows that it did not name are marked absent. */
    method ApplyDelta(s: Snapshot, ghost f: Facts) returns (result: Result<(), string>)
      requires StoredOk(State()) && Reads(f, State())
      modifies this
      ensures Validate(s).Some? ==> result == Err(Validate(s).value) && State() == old(State())
      ensures Validate(s).None? ==>
                && result.Ok? && StoredOk(State()) && StoredKeeps(old(State()), State())
                && Reads(Published(f, FactsOf(s)), State()) && PublishedAsSent(f, State(), s)
    {
      hide PublishedAsSent;
      var error := Validate(s);
      if error.Some? {
        return Err(error.value);
      }
      SortingKeepsFacts(s);
      var ids := UpsertSnapshot(Sorted(s), s, f);
      ghost var middle := State();
      MarkMissing(FactsOf(s), Overlaid(f, FactsOf(s)), ids);
      KeptThrough(old(State()), middle, State());
      PublicationMeaning(f, s, State());
      result := Ok(());
    }

    method MarkMissing(ghost snapshot: Facts, ghost f: Facts, ids: Upserted)
      requires StoredOk(State()) && Reads(f, State()) && UpsertedOf(ids, State(), snapshot)
      modifies this
      ensures StoredOk(State()) && StoredKeeps(old(State()), State())
      ensures Reads(Facts(Cleared(f.departments, snapshot.departments.Keys), Cleared(f.companies, snapshot.companies.Keys),
                          Cleared(f.contacts, snapshot.contacts.Keys), Cleared(f.relations, snapshot.relations.Keys)),
                    State())
    {
      var keepCompanies := RowsWithIds(companies, ids.companies.Values);
      var keepDepartments := RowsWithIds(departments, ids.departments.Values);
      RowsOfIds(companies, ids.companies, snapshot.companies.Keys);
      RowsOfIds(departments, ids.departments, snapshot.departments.Keys);
      MarkChildren(ids.contacts, ids.relations, f, snapshot.contacts.Keys, snapshot.relations.Keys);
      ghost var middle := State();
      MarkParents(keepDepartments, keepCompanies,
                  f.(contacts := Cleared(f.contacts, snapshot.contacts.Keys),
                     relations := Cleared(f.relations, snapshot.relations.Keys)));
      KeptThrough(old(State()), middle, State());
    }
  }
}
