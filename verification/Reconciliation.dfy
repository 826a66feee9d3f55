/** The manual reconciliation: the plan over both sources, its application, and what planning again finds.
    `src/core/digisac_acessorias_reconciliation.py`. */
module Reconciliation {
  import opened Common
  import opened Sorting
  import opened Tables
  import opened Directory
  import opened DirectoryStore
  import opened DirectoryRepository
  import opened ReconciliationPlan
  import C = Contacts
  import opened K = ContactReconciliation

  const MANUAL_CONTACT_SOURCE := "manual_reconciliation"

  /** The directory half of `ReconciliationPlan`. */
  datatype DirectoryPlan = DirectoryPlan(departments: Counts, companies: Counts, contacts: Counts, relations: Counts,
                                         retained: nat)

  /** `ReconciliationPlan`, without the hashes and the count of confirmed links. */
  datatype Plan = Plan(directory: DirectoryPlan, digisac: KindCounts)

  function Missing<K, V>(stored: map<K, Cell<V>>, incoming: map<K, Cell<V>>): nat { |stored.Keys - incoming.Keys| }

  function RetainedOf(f: Facts, incoming: Facts): nat {
    Missing(f.companies, incoming.companies) + Missing(f.departments, incoming.departments)
    + Missing(f.contacts, incoming.contacts) + Missing(f.relations, incoming.relations)
  }

  function DirectoryPlanOf(f: Facts, incoming: Facts): DirectoryPlan {
    DirectoryPlan(CountsOf(f.departments, incoming.departments), CountsOf(f.companies, incoming.companies),
                  CountsOf(f.contacts, incoming.contacts), CountsOf(f.relations, incoming.relations),
                  RetainedOf(f, incoming))
  }

  /** The plan that tables saying `f` and `rows` call for. */
  function PlanOf(f: Facts, rows: map<string, C.ContactRow>, incoming: Facts, cs: seq<C.Contact>): Plan {
    Plan(DirectoryPlanOf(f, incoming), KindCountsOf(rows, cs))
  }

  ghost predicate AllPresent<K(!new), V>(cells: map<K, Cell<V>>) { forall k :: k in cells ==> cells[k].present }

  lemma {:induction false} OverlayPresent<K(!new), V(!new)>(items: seq<Item<K, V>>)
    requires forall x :: x in items ==> x.cell.present
    ensures AllPresent(Overlay(items))
  {
    if items != [] {
      var rest, last := items[..|items| - 1], items[|items| - 1];
      assert items == rest + [last];
      OverlayPresent(rest);
    }
  }

  lemma FactsPresent(s: Snapshot)
    ensures var g := FactsOf(s);
            AllPresent(g.departments) && AllPresent(g.companies) && AllPresent(g.contacts) && AllPresent(g.relations)
  {
    OverlayPresent(DepartmentItems(s.departments));
    OverlayPresent(CompanyItems(s.companies));
    forall x | x in ContactItems(s.companies) ensures x.cell.present { ContactItemsMeaning(s.companies, x); }
    OverlayPresent(ContactItems(s.companies));
    forall x | x in RelationItems(s.companies) ensures x.cell.present { RelationItemsMeaning(s.companies, x); }
    OverlayPresent(RelationItems(s.companies));
  }

  /** `build_reconciliation_plan`. */
  method BuildPlan(st: Stored, rows: map<string, C.ContactRow>, s: Snapshot, cs: seq<C.Contact>, ghost f: Facts)
    returns (result: Result<Plan, string>)
    requires StoredOk(st) && Reads(f, st) && IdsDistinct(cs)
    ensures Validate(s).Some? ==> result == Err(Validate(s).value)
    ensures Validate(s).None? ==> result == Ok(PlanOf(f, rows, FactsOf(s), cs))
  {
    var error := Validate(s);
    if error.Some? {
      return Err(error.value);
    }
    var stored := Load(st);
    ReadsUnique(stored, f, st);
    var incoming := FactsOf(s);
    FactsPresent(s);
    var companies := CountResource(stored.companies, incoming.companies);
    var departments := CountResource(stored.departments, incoming.departments);
    var contacts := CountResource(stored.contacts, incoming.contacts);
    var relations := CountResource(stored.relations, incoming.relations);
    var digisac := CountContacts(rows, cs);
    result := Ok(Plan(DirectoryPlan(departments, companies, contacts, relations, RetainedOf(stored, incoming)), digisac));
  }

  class ContactStore {
    var table: ContactTable

    constructor ()
      ensures table == ContactTable(map[], 1)
    {
      table := ContactTable(map[], 1);
    }

    /** `_upsert_digisac_contact_cursor`, for a source other than the ticket webhook. */
    method Upsert(c: C.Contact, source: string, observed: int)
      modifies this
      ensures table == Store(old(table), c, source, observed)
      ensures c.externalId in table.rows
      ensures var row := table.rows[c.externalId];
              if c.externalId in old(table).rows then
                C.MergedByTime(old(table).rows[c.externalId].fields, c.fields, row.fields)
              else row.fields == c.fields && row.lastSeen == observed && row.lastSource == source
    {
      C.UpsertMeaning(table.rows, table.next, c, source, observed);
      if c.externalId !in table.rows {
        table := ContactTable(table.rows[c.externalId := C.ContactRow(table.next, c.fields, observed, source)], table.next + 1);
      } else {
        var row := table.rows[c.externalId];
        var merged := C.MergeFields(row.fields, c.fields);
        var keepSource := C.IsOlder(row.fields, c.fields) || C.IsUnordered(row.fields, c.fields);
        var next := C.ContactRow(row.id, merged, if row.lastSeen < observed then observed else row.lastSeen,
                                 if keepSource then row.lastSource else source);
        table := table.(rows := table.rows[c.externalId := next]);
      }
    }

    /** `_apply_digisac_delta`. */
    method Apply(cs: seq<C.Contact>, observed: int)
      modifies this
      ensures table == StoreAll(old(table), Sort(cs, ById), MANUAL_CONTACT_SOURCE, observed)
    {
      var order := Sort(cs, ById);
      for i := 0 to |order|
        invariant table == StoreAll(old(table), order[..i], MANUAL_CONTACT_SOURCE, observed)
      {
        assert order[..i + 1][..i] == order[..i];
        Upsert(order[i], MANUAL_CONTACT_SOURCE, observed);
      }
      assert order[..|order|] == order;
    }
  }

  /** `run_manual_reconciliation` once both snapshots have been acquired, up to the identity matching:
      the validation, then one transaction that takes the locks, plans and, when asked, applies. `f` is what
      the directory tables said before. */
  method Reconcile(directory: Repository, contacts: ContactStore, s: Snapshot, cs: seq<C.Contact>, observed: int,
                   locked: bool, apply: bool, ghost f: Facts)
    returns (result: Result<Plan, string>)
    requires StoredOk(directory.State()) && Reads(f, directory.State()) && IdsDistinct(cs)
    modifies directory, contacts
    ensures result.Ok? <==> Validate(s).None? && locked
    ensures Validate(s).Some? ==> result == Err(Validate(s).value)
    ensures Validate(s).None? && !locked ==> result == Err("reconciliation_in_progress")
    ensures result.Ok? ==> result == Ok(PlanOf(f, old(contacts.table.rows), FactsOf(s), cs))
    ensures result.Err? || !apply ==> directory.State() == old(directory.State()) && contacts.table == old(contacts.table)
    ensures result.Ok? && apply ==>
              && StoredOk(directory.State()) && StoredKeeps(old(directory.State()), directory.State())
              && Reads(Published(f, FactsOf(s)), directory.State())
              && contacts.table == StoreAll(old(contacts.table), Sort(cs, ById), MANUAL_CONTACT_SOURCE, observed)
  {
    hide PublishedAsSent, Reads, StoredOk, StoredKeeps, PlanOf, StoreAll, FactsOf, Validate;
    var error := Validate(s);
    if error.Some? {
      return Err(error.value);
    }
    if !locked {
      return Err("reconciliation_in_progress");
    }
    result := BuildPlan(directory.State(), contacts.table.rows, s, cs, f);
    if apply {
      var _ := directory.ApplyDelta(s, f);
      contacts.Apply(cs, observed);
    }
  }

  // ---- What the plan says --------------------------------------------------------------------------------

  /** Per resource the counts add up to the size of the snapshot. */
  lemma PlanSums(f: Facts, rows: map<string, C.ContactRow>, incoming: Facts, cs: seq<C.Contact>)
    ensures var plan := PlanOf(f, rows, incoming, cs);
            && plan.directory.departments.Total() == |incoming.departments|
            && plan.directory.companies.Total() == |incoming.companies|
            && plan.directory.contacts.Total() == |incoming.contacts|
            && plan.directory.relations.Total() == |incoming.relations|
            && plan.digisac.Total() == |cs|
  {
    hide CountsOf;
    hide KindCountsOf;
    CountsSum(f.departments, incoming.departments);
    CountsSum(f.companies, incoming.companies);
    CountsSum(f.contacts, incoming.contacts);
    CountsSum(f.relations, incoming.relations);
    KindsSum(rows, cs);
  }

  /** What happened to one resource: the rows that appeared, the named rows that came out different, and
      the named rows that came out the same. */
  function DeltaOf<K, V(==)>(before: map<K, Cell<V>>, after: map<K, Cell<V>>, incoming: map<K, Cell<V>>): Counts {
    Counts(|after.Keys - before.Keys|, |Rewritten(before, after, incoming)|,
           |set k | k in before && k in after && k in incoming && after[k] == before[k]|)
  }

  lemma ResourcePredicts<K(!new), V>(stored: map<K, Cell<V>>, incoming: map<K, Cell<V>>, after: map<K, Cell<V>>)
    requires after == After(stored, incoming)
    ensures CountsOf(stored, incoming) == DeltaOf(stored, after, incoming)
  {
    CountsPredict(stored, incoming);
    AfterAt(stored, incoming);
    assert (set k | k in stored && k in after && k in incoming && after[k] == stored[k]) == KeysOf(stored, incoming, Unchanged);
  }

  /** What happened to the directory, and the rows that it has and the snapshot does not name. */
  function DirectoryDeltaOf(f: Facts, after: Facts, incoming: Facts): DirectoryPlan {
    DirectoryPlan(DeltaOf(f.departments, after.departments, incoming.departments),
                  DeltaOf(f.companies, after.companies, incoming.companies),
                  DeltaOf(f.contacts, after.contacts, incoming.contacts),
                  DeltaOf(f.relations, after.relations, incoming.relations), RetainedOf(f, incoming))
  }

  lemma DirectoryPredicts(f: Facts, incoming: Facts)
    ensures DirectoryPlanOf(f, incoming) == DirectoryDeltaOf(f, Published(f, incoming), incoming)
  {
    hide CountsOf;
    hide DeltaOf;
    hide Missing;
    hide Cleared;
    var after := Published(f, incoming);
    ResourcePredicts(f.departments, incoming.departments, after.departments);
    ResourcePredicts(f.companies, incoming.companies, after.companies);
    ResourcePredicts(f.contacts, incoming.contacts, after.contacts);
    ResourcePredicts(f.relations, incoming.relations, after.relations);
  }

  /** How many rows of the four tables come out different. */
  function AlteredCount(f: Facts, after: Facts): nat {
    |Altered(f.departments, after.departments)| + |Altered(f.companies, after.companies)|
    + |Altered(f.contacts, after.contacts)| + |Altered(f.relations, after.relations)|
  }

  /** How many rows lose their flags because the snapshot does not name them. */
  function DroppedCount(f: Facts, incoming: Facts): nat {
    |Dropped(f.departments, incoming.departments)| + |Dropped(f.companies, incoming.companies)|
    + |Dropped(f.contacts, incoming.contacts)| + |Dropped(f.relations, incoming.relations)|
  }

  function ChangedCount(plan: DirectoryPlan): nat {
    plan.departments.changed + plan.companies.changed + plan.contacts.changed + plan.relations.changed
  }

  ghost predicate NoneFlagged<K(!new), V>(stored: map<K, Cell<V>>, incoming: map<K, Cell<V>>) {
    forall k :: k in stored && k !in incoming ==> !Flagged(stored[k])
  }

  /** Every row that the snapshot does not name is neither present nor active already. */
  ghost predicate NothingToDrop(f: Facts, incoming: Facts) {
    && NoneFlagged(f.departments, incoming.departments) && NoneFlagged(f.companies, incoming.companies)
    && NoneFlagged(f.contacts, incoming.contacts) && NoneFlagged(f.relations, incoming.relations)
  }

  lemma ResourceAltered<K(!new), V>(stored: map<K, Cell<V>>, incoming: map<K, Cell<V>>, after: map<K, Cell<V>>)
    requires after == After(stored, incoming)
    ensures |Altered(stored, after)| == CountsOf(stored, incoming).changed + |Dropped(stored, incoming)|
    ensures |Dropped(stored, incoming)| <= Missing(stored, incoming)
    ensures |Dropped(stored, incoming)| == 0 <==> NoneFlagged(stored, incoming)
  {
    AlteredExactly(stored, incoming);
    ChangedCountsAllExactly(stored, incoming);
    var rest := stored.Keys - incoming.Keys;
    assert rest == Dropped(stored, incoming) + (rest - Dropped(stored, incoming));
  }

  /** What the change counts leave out: the rows that lose their flags. They are among the retained ones. So the
      plan counts every row that applying alters if and only if every row that is not named is neither present
      nor active already. */
  lemma PlanCountsAllExactly(f: Facts, incoming: Facts)
    ensures var plan, altered := DirectoryPlanOf(f, incoming), AlteredCount(f, Published(f, incoming));
            && altered == ChangedCount(plan) + DroppedCount(f, incoming)
            && DroppedCount(f, incoming) <= plan.retained
            && (altered == ChangedCount(plan) <==> NothingToDrop(f, incoming))
  {
    hide CountsOf, Altered, Dropped, Missing, Cleared, NoneFlagged;
    var after := Published(f, incoming);
    ResourceAltered(f.departments, incoming.departments, after.departments);
    ResourceAltered(f.companies, incoming.companies, after.companies);
    ResourceAltered(f.contacts, incoming.contacts, after.contacts);
    ResourceAltered(f.relations, incoming.relations, after.relations);
  }

  lemma EmptyIncoming<K(!new), V>(stored: map<K, Cell<V>>)
    ensures CountsOf(stored, map[]).changed == 0 && Missing(stored, map[]) == |stored|
    ensures Dropped(stored, map[]) == set k | k in stored && Flagged(stored[k])
  {
    CountsSum(stored, map[]);
    var none: map<K, Cell<V>> := map[];
    assert stored.Keys - none.Keys == stored.Keys;
  }

  /** One company that is present or active, and an empty snapshot: nothing is counted as changed, and one row is
      altered. */
  lemma DroppedCompanyUncounted(id: string, cell: Cell<CompanyFields>)
    requires Flagged(cell)
    ensures var f, empty := Facts(map[], map[id := cell], map[], map[]), Snapshot([], []);
            var plan := DirectoryPlanOf(f, FactsOf(empty));
            && Validate(empty).None? && ChangedCount(plan) == 0 && plan.retained == 1
            && AlteredCount(f, Published(f, FactsOf(empty))) == 1
  {
    hide CountsOf, Dropped, Missing, Published, AlteredCount;
    var f, incoming := Facts(map[], map[id := cell], map[], map[]), FactsOf(Snapshot([], []));
    assert incoming == Facts(map[], map[], map[], map[]);
    PlanCountsAllExactly(f, incoming);
    EmptyIncoming(f.departments);
    EmptyIncoming(f.companies);
    EmptyIncoming(f.contacts);
    EmptyIncoming(f.relations);
    assert Dropped(f.companies, map[]) == {id} && Dropped(f.departments, map[]) == {};
    assert Dropped(f.contacts, map[]) == {} && Dropped(f.relations, map[]) == {};
  }

  /** What the plan says about applying, on every resource: "new" counts the rows that appear, "changed" the named
      rows that are altered. All the altered rows of the directory are those and the ones that are dropped. The
      contacts whose provider fields are altered are the changed ones and the unordered ones, which the total of
      changes leaves out. */
  lemma PlanPredicts(f: Facts, t: ContactTable, incoming: Facts, cs: seq<C.Contact>, observed: int)
    requires IdsDistinct(cs)
    ensures var plan, after := PlanOf(f, t.rows, incoming, cs), Published(f, incoming);
            var rows := StoreAll(t, Sort(cs, ById), MANUAL_CONTACT_SOURCE, observed).rows;
            && plan.directory == DirectoryDeltaOf(f, after, incoming)
            && AlteredCount(f, after) == ChangedCount(plan.directory) + DroppedCount(f, incoming)
            && (AlteredCount(f, after) == ChangedCount(plan.directory) <==> NothingToDrop(f, incoming))
            && plan.digisac.added == |rows.Keys - t.rows.Keys|
            && plan.digisac.changed + plan.digisac.unordered == |FieldsAltered(t.rows, rows)|
  {
    hide AlteredCount, DroppedCount, ChangedCount, NothingToDrop, Published, DirectoryDeltaOf, StoreAll;
    DirectoryPredicts(f, incoming);
    PlanCountsAllExactly(f, incoming);
    KindsPredict(t, cs, MANUAL_CONTACT_SOURCE, observed);
  }

  /** Nothing to add or change. */
  function Quiet<K, V>(incoming: map<K, Cell<V>>): Counts { Counts(0, 0, |incoming|) }

  lemma ResourceSettles<K(!new), V>(stored: map<K, Cell<V>>, incoming: map<K, Cell<V>>, after: map<K, Cell<V>>)
    requires after == After(stored, incoming)
    ensures CountsOf(after, incoming) == Quiet(incoming)
    ensures Missing(after, incoming) == Missing(stored, incoming)
  {
    CountsSettle(stored, incoming);
  }

  lemma DirectorySettles(f: Facts, incoming: Facts)
    ensures DirectoryPlanOf(Published(f, incoming), incoming) ==
            DirectoryPlan(Quiet(incoming.departments), Quiet(incoming.companies),
                          Quiet(incoming.contacts), Quiet(incoming.relations), RetainedOf(f, incoming))
  {
    hide CountsOf;
    hide Missing;
    hide Quiet;
    hide Cleared;
    var after := Published(f, incoming);
    ResourceSettles(f.departments, incoming.departments, after.departments);
    ResourceSettles(f.companies, incoming.companies, after.companies);
    ResourceSettles(f.contacts, incoming.contacts, after.contacts);
    ResourceSettles(f.relations, incoming.relations, after.relations);
  }

  /** Applying is a fixpoint: the next plan with the same snapshots has nothing new, changed or unordered,
      and retains the same number of rows. */
  lemma PlanSettles(f: Facts, t: ContactTable, incoming: Facts, cs: seq<C.Contact>, observed: int)
    requires IdsDistinct(cs)
    ensures var rows := StoreAll(t, Sort(cs, ById), MANUAL_CONTACT_SOURCE, observed).rows;
            var next := PlanOf(Published(f, incoming), rows, incoming, cs);
            && next.directory ==
               DirectoryPlan(Quiet(incoming.departments), Quiet(incoming.companies),
                             Quiet(incoming.contacts), Quiet(incoming.relations), RetainedOf(f, incoming))
            && next.digisac.added == 0 && next.digisac.changed == 0 && next.digisac.unordered == 0
  {
    DirectorySettles(f, incoming);
    KindsSettle(t, cs, MANUAL_CONTACT_SOURCE, observed);
  }

  /** A plan of nothing: every fact and contact that came in is there as it came, and `retained` rows are not named. */
  ghost predicate Idle(plan: Plan, incoming: Facts, cs: seq<C.Contact>, retained: nat) {
    && plan.directory == DirectoryPlan(Quiet(incoming.departments), Quiet(incoming.companies),
                                       Quiet(incoming.contacts), Quiet(incoming.relations), retained)
    && plan.digisac.added == 0 && plan.digisac.changed == 0 && plan.digisac.unordered == 0
    && plan.digisac.Total() == |cs|
  }

  lemma NextPlanIdle(f: Facts, t: ContactTable, incoming: Facts, cs: seq<C.Contact>, observed: int)
    requires IdsDistinct(cs)
    ensures var rows := StoreAll(t, Sort(cs, ById), MANUAL_CONTACT_SOURCE, observed).rows;
            Idle(PlanOf(Published(f, incoming), rows, incoming, cs), incoming, cs,
                 PlanOf(f, t.rows, incoming, cs).directory.retained)
  {
    hide Published, StoreAll;
    var rows := StoreAll(t, Sort(cs, ById), MANUAL_CONTACT_SOURCE, observed).rows;
    PlanSettles(f, t, incoming, cs, observed);
    PlanSums(Published(f, incoming), rows, incoming, cs);
  }

  /** The tables are at a fixpoint too: publishing the same snapshot again leaves every fact as it is. */
  lemma PublishedFixed(f: Facts, incoming: Facts)
    ensures Published(Published(f, incoming), incoming) == Published(f, incoming)
  {
    AfterFixed(f.departments, incoming.departments);
    AfterFixed(f.companies, incoming.companies);
    AfterFixed(f.contacts, incoming.contacts);
    AfterFixed(f.relations, incoming.relations);
  }

  /** The same contacts with the same provider fields. */
  ghost predicate SameFields(a: map<string, C.ContactRow>, b: map<string, C.ContactRow>) {
    a.Keys == b.Keys && forall id :: id in a ==> b[id].fields == a[id].fields
  }

  lemma ContactsFixed(t: ContactTable, cs: seq<C.Contact>, observed: int, again: int)
    requires IdsDistinct(cs)
    ensures var once := StoreAll(t, Sort(cs, ById), MANUAL_CONTACT_SOURCE, observed);
            SameFields(once.rows, StoreAll(once, Sort(cs, ById), MANUAL_CONTACT_SOURCE, again).rows)
  {
    var once := StoreAll(t, Sort(cs, ById), MANUAL_CONTACT_SOURCE, observed);
    var twice := StoreAll(once, Sort(cs, ById), MANUAL_CONTACT_SOURCE, again);
    hide StoreAll, KindCountsOf;
    KindsSettle(t, cs, MANUAL_CONTACT_SOURCE, observed);
    KindsPredict(once, cs, MANUAL_CONTACT_SOURCE, again);
    assert twice.rows.Keys - once.rows.Keys == {} && FieldsAltered(once.rows, twice.rows) == {};
    forall id | id in once.rows ensures twice.rows[id].fields == once.rows[id].fields {
      assert id !in FieldsAltered(once.rows, twice.rows);
    }
    assert forall id :: id in twice.rows ==> id !in twice.rows.Keys - once.rows.Keys;
  }

  /** Two runs of the command with the same snapshots, the first of them applying: whether the second one
      applies or not, it finds nothing to do, and the retained rows of the first. It leaves what the directory
      says as the first one left it, and the provider fields of every contact. */
  method ReconcileTwice(directory: Repository, contacts: ContactStore, s: Snapshot, cs: seq<C.Contact>, observed: int,
                        again: int, apply: bool, ghost f: Facts)
    returns (first: Result<Plan, string>, second: Result<Plan, string>)
    requires StoredOk(directory.State()) && Reads(f, directory.State()) && IdsDistinct(cs)
    modifies directory, contacts
    ensures Validate(s).Some? ==> first == second == Err(Validate(s).value)
    ensures Validate(s).None? ==>
              && first == Ok(PlanOf(f, old(contacts.table.rows), FactsOf(s), cs)) && second.Ok?
              && Idle(second.value, FactsOf(s), cs, first.value.directory.retained)
              && StoredOk(directory.State()) && StoredKeeps(old(directory.State()), directory.State())
              && Reads(Published(f, FactsOf(s)), directory.State())
              && SameFields(StoreAll(old(contacts.table), Sort(cs, ById), MANUAL_CONTACT_SOURCE, observed).rows,
                            contacts.table.rows)
  {
    hide PlanOf, Published, StoreAll, Reads, StoredOk, StoredKeeps, FactsOf, Idle;
    ghost var before, begin := contacts.table, directory.State();
    first := Reconcile(directory, contacts, s, cs, observed, true, true, f);
    ghost var after := if first.Ok? then Published(f, FactsOf(s)) else f;
    ghost var middle := directory.State();
    second := Reconcile(directory, contacts, s, cs, again, true, apply, after);
    NextPlanIdle(f, before, FactsOf(s), cs, observed);
    PublishedFixed(f, FactsOf(s));
    ContactsFixed(before, cs, observed, again);
    if first.Ok? && second.Ok? && apply { KeptThrough(begin, middle, directory.State()); }
  }

  /** A refresh of the directory settles the plan as well: planning the snapshot that was just published finds
      nothing to do in the directory. */
  method PublishThenPlan(directory: Repository, rows: map<string, C.ContactRow>, s: Snapshot, cs: seq<C.Contact>,
                         ghost f: Facts)
    returns (published: Result<nat, string>, plan: Result<Plan, string>)
    requires StoredOk(directory.State()) && Reads(f, directory.State()) && IdsDistinct(cs)
    modifies directory
    ensures Validate(s).Some? ==> plan == Err(Validate(s).value)
    ensures Validate(s).None? ==>
              && published.Ok? && plan.Ok?
              && plan.value.directory ==
                 DirectoryPlan(Quiet(FactsOf(s).departments), Quiet(FactsOf(s).companies),
                               Quiet(FactsOf(s).contacts), Quiet(FactsOf(s).relations), RetainedOf(f, FactsOf(s)))
  {
    published := directory.PublishSnapshot(s, f);
    PublicationOrdersAgree(f, FactsOf(s));
    DirectorySettles(f, FactsOf(s));
    ghost var after := if published.Ok? then Published(f, FactsOf(s)) else f;
    plan := BuildPlan(directory.State(), rows, s, cs, after);
  }
}
