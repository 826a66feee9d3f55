/** The plan of a manual reconciliation, and what applying it does to the directory:
    `src/core/digisac_acessorias_reconciliation.py`. */
module ReconciliationPlan {
  import opened Common
  import opened Tables
  import opened Directory
  import opened DirectoryStore
  import Contacts

  // ---- Loading the tables by external ids -----------------------------------------------------------

  /** What the rows outside `todo` say. */
  ghost predicate ContactsLoaded(m: map<(string, string), Cell<ContactFields>>, companies: Table<string, CompanyFields>,
                                 contacts: Table<(nat, string), ContactFields>, todo: set<(nat, string)>) {
    ReadsContacts(m, companies, Table(contacts.rows - todo, 0))
  }

  lemma ContactLoaded(m: map<(string, string), Cell<ContactFields>>, companies: Table<string, CompanyFields>,
                      contacts: Table<(nat, string), ContactFields>, todo: set<(nat, string)>, e: string, ck: (nat, string))
    requires Valid(companies) && e in companies.rows && companies.rows[e].id == ck.0
    requires ck in contacts.rows && ck in todo && ContactsLoaded(m, companies, contacts, todo)
    ensures ContactsLoaded(m[(e, ck.1) := contacts.rows[ck].cell], companies, contacts, todo - {ck})
  {
    var now, next := Table(contacts.rows - todo, 0), Table(contacts.rows - (todo - {ck}), 0);
    assert next.rows == now.rows[ck := contacts.rows[ck]];
    forall d, key ensures Lookup(m[(e, ck.1) := contacts.rows[ck].cell], (d, key)) == ContactAt(companies, next, d, key) {
      assert Lookup(m, (d, key)) == ContactAt(companies, now, d, key);
    }
  }

  method Owner<V(!new)>(t: Table<string, V>, id: nat) returns (e: string)
    requires id in Ids(t)
    ensures e in t.rows && t.rows[e].id == id
  {
    e :| e in t.rows && t.rows[e].id == id;
  }

  /** The contacts query of `_load_directory_rows`, with its join. */
  method LoadContacts(companies: Table<string, CompanyFields>, contacts: Table<(nat, string), ContactFields>)
    returns (m: map<(string, string), Cell<ContactFields>>)
    requires Valid(companies) && ContactsRefer(companies, contacts)
    ensures ReadsContacts(m, companies, contacts)
  {
    m := map[];
    var todo := contacts.rows.Keys;
    assert contacts.rows - todo == map[];
    while todo != {}
      invariant todo <= contacts.rows.Keys && ContactsLoaded(m, companies, contacts, todo)
      decreases |todo|
    {
      var ck :| ck in todo;
      var e := Owner(companies, ck.0);
      ContactLoaded(m, companies, contacts, todo, e, ck);
      m := m[(e, ck.1) := contacts.rows[ck].cell];
      todo := todo - {ck};
    }
    assert contacts.rows - todo == contacts.rows;
    forall e, key ensures Lookup(m, (e, key)) == ContactAt(companies, contacts, e, key) {
      assert Lookup(m, (e, key)) == ContactAt(companies, Table(contacts.rows - todo, 0), e, key);
    }
  }

  ghost predicate RelationsLoaded(m: map<(string, string), Cell<()>>, departments: Table<string, DepartmentFields>,
                                  companies: Table<string, CompanyFields>, relations: Table<(nat, nat), ()>,
                                  todo: set<(nat, nat)>) {
    ReadsRelations(m, departments, companies, Table(relations.rows - todo, 0))
  }

  lemma RelationLoaded(m: map<(string, string), Cell<()>>, departments: Table<string, DepartmentFields>,
                       companies: Table<string, CompanyFields>, relations: Table<(nat, nat), ()>,
                       todo: set<(nat, nat)>, e: string, f: string, r: (nat, nat))
    requires Valid(departments) && Valid(companies) && e in companies.rows && f in departments.rows
    requires r == (companies.rows[e].id, departments.rows[f].id) && r in relations.rows && r in todo
    requires RelationsLoaded(m, departments, companies, relations, todo)
    ensures RelationsLoaded(m[(e, f) := relations.rows[r].cell], departments, companies, relations, todo - {r})
  {
    var now, next := Table(relations.rows - todo, 0), Table(relations.rows - (todo - {r}), 0);
    assert next.rows == now.rows[r := relations.rows[r]];
    forall d, g ensures Lookup(m[(e, f) := relations.rows[r].cell], (d, g)) == RelationAt(departments, companies, next, d, g) {
      assert Lookup(m, (d, g)) == RelationAt(departments, companies, now, d, g);
    }
  }

  /** The relations query of `_load_directory_rows`, with its two joins. */
  method LoadRelations(departments: Table<string, DepartmentFields>, companies: Table<string, CompanyFields>,
                       relations: Table<(nat, nat), ()>)
    returns (m: map<(string, string), Cell<()>>)
    requires Valid(departments) && Valid(companies) && RelationsRefer(departments, companies, relations)
    ensures ReadsRelations(m, departments, companies, relations)
  {
    m := map[];
    var todo := relations.rows.Keys;
    assert relations.rows - todo == map[];
    while todo != {}
      invariant todo <= relations.rows.Keys && RelationsLoaded(m, departments, companies, relations, todo)
      decreases |todo|
    {
      var r :| r in todo;
      var e := Owner(companies, r.0);
      var f := Owner(departments, r.1);
      RelationLoaded(m, departments, companies, relations, todo, e, f, r);
      m := m[(e, f) := relations.rows[r].cell];
      todo := todo - {r};
    }
    assert relations.rows - todo == relations.rows;
    forall e, f ensures Lookup(m, (e, f)) == RelationAt(departments, companies, relations, e, f) {
      assert Lookup(m, (e, f)) == RelationAt(departments, companies, Table(relations.rows - todo, 0), e, f);
    }
  }

  lemma SameMap<K(!new), V>(a: map<K, V>, b: map<K, V>)
    requires forall k :: Lookup(a, k) == Lookup(b, k)
    ensures a == b
  {
    forall k ensures k in a <==> k in b { assert Lookup(a, k) == Lookup(b, k); }
    forall k | k in a ensures a[k] == b[k] { assert Lookup(a, k) == Lookup(b, k); }
  }

  /** What the tables say is one thing only. */
  lemma ReadsUnique(f: Facts, g: Facts, st: Stored)
    requires Reads(f, st) && Reads(g, st)
    ensures f == g
  {
    forall p: (string, string)
      ensures Lookup(f.contacts, p) == Lookup(g.contacts, p) && Lookup(f.relations, p) == Lookup(g.relations, p)
    {
      assert Lookup(f.contacts, (p.0, p.1)) == Lookup(g.contacts, (p.0, p.1));
      assert Lookup(f.relations, (p.0, p.1)) == Lookup(g.relations, (p.0, p.1));
    }
    SameMap(f.contacts, g.contacts);
    SameMap(f.relations, g.relations);
  }

  /** `_load_directory_rows`. */
  method Load(st: Stored) returns (f: Facts)
    requires StoredOk(st)
    ensures Reads(f, st)
  {
    var contacts := LoadContacts(st.companies, st.contacts);
    var relations := LoadRelations(st.departments, st.companies, st.relations);
    f := Facts(Cells(st.departments), Cells(st.companies), contacts, relations);
  }

  // ---- Directory counts -----------------------------------------------------------------------------

  /** How an incoming fact stands to the stored rows. */
  datatype Change = New | Changed | Unchanged

  function ChangeOf<K, V(==)>(stored: map<K, Cell<V>>, k: K, cell: Cell<V>): Change {
    if k !in stored then New else if stored[k] != cell then Changed else Unchanged
  }

  function KeysOf<K, V(==)>(stored: map<K, Cell<V>>, incoming: map<K, Cell<V>>, change: Change): set<K> {
    set k | k in incoming && ChangeOf(stored, k, incoming[k]) == change
  }

  datatype Counts = Counts(added: nat, changed: nat, same: nat) {
    function Total(): nat { added + changed + same }
  }

  function CountsOf<K, V(==)>(stored: map<K, Cell<V>>, incoming: map<K, Cell<V>>): Counts {
    Counts(|KeysOf(stored, incoming, New)|, |KeysOf(stored, incoming, Changed)|, |KeysOf(stored, incoming, Unchanged)|)
  }

  ghost predicate Counted<K(!new), V>(stored: map<K, Cell<V>>, incoming: map<K, Cell<V>>, todo: set<K>,
                                      keys: set<K>, change: Change) {
    forall k :: k in keys <==> k in incoming && k !in todo && ChangeOf(stored, k, incoming[k]) == change
  }

  lemma CountOne<K(!new), V>(stored: map<K, Cell<V>>, incoming: map<K, Cell<V>>, todo: set<K>, keys: set<K>,
                             change: Change, k: K)
    requires Counted(stored, incoming, todo, keys, change) && k in todo && k in incoming
    ensures var next := if ChangeOf(stored, k, incoming[k]) == change then keys + {k} else keys;
            && Counted(stored, incoming, todo - {k}, next, change)
            && |next| == |keys| + if ChangeOf(stored, k, incoming[k]) == change then 1 else 0
  {
  }

  lemma AllCounted<K(!new), V>(stored: map<K, Cell<V>>, incoming: map<K, Cell<V>>, keys: set<K>, change: Change)
    requires Counted(stored, incoming, {}, keys, change)
    ensures keys == KeysOf(stored, incoming, change)
  {
  }

  /** The counter loop of one directory resource. A null activity counts as not active. */
  method CountResource<K(!new), V(==)>(stored: map<K, Cell<V>>, incoming: map<K, Cell<V>>) returns (counts: Counts)
    requires forall k :: k in incoming ==> incoming[k].present
    ensures counts == CountsOf(stored, incoming)
  {
    var added, changed, same := 0, 0, 0;
    ghost var a: set<K>, b: set<K>, c: set<K> := {}, {}, {};
    var todo := incoming.Keys;
    while todo != {}
      invariant todo <= incoming.Keys
      invariant Counted(stored, incoming, todo, a, New) && added == |a|
      invariant Counted(stored, incoming, todo, b, Changed) && changed == |b|
      invariant Counted(stored, incoming, todo, c, Unchanged) && same == |c|
      decreases |todo|
    {
      var k :| k in todo;
      CountOne(stored, incoming, todo, a, New, k);
      CountOne(stored, incoming, todo, b, Changed, k);
      CountOne(stored, incoming, todo, c, Unchanged, k);
      todo := todo - {k};
      if k !in stored {
        added, a := added + 1, a + {k};
      } else if stored[k].fields != incoming[k].fields || stored[k].active != incoming[k].active || !stored[k].present {
        changed, b := changed + 1, b + {k};
      } else {
        same, c := same + 1, c + {k};
      }
    }
    AllCounted(stored, incoming, a, New);
    AllCounted(stored, incoming, b, Changed);
    AllCounted(stored, incoming, c, Unchanged);
    counts := Counts(added, changed, same);
  }

  /** The three counts add up to the number of incoming facts. */
  lemma CountsSum<K(!new), V>(stored: map<K, Cell<V>>, incoming: map<K, Cell<V>>)
    ensures var c := CountsOf(stored, incoming); c.added + c.changed + c.same == |incoming|
  {
    var a, b, c := KeysOf(stored, incoming, New), KeysOf(stored, incoming, Changed), KeysOf(stored, incoming, Unchanged);
    assert incoming.Keys == a + b + c;
    assert a !! b && (a + b) !! c;
  }

  /** What applying a snapshot does to one resource. */
  function After<K, V>(stored: map<K, Cell<V>>, incoming: map<K, Cell<V>>): map<K, Cell<V>> {
    Cleared(stored + incoming, incoming.Keys)
  }

  lemma AfterAt<K, V>(stored: map<K, Cell<V>>, incoming: map<K, Cell<V>>)
    ensures After(stored, incoming).Keys == stored.Keys + incoming.Keys
    ensures forall k :: k in incoming ==> After(stored, incoming)[k] == incoming[k]
    ensures forall k :: k in stored && k !in incoming ==> After(stored, incoming)[k] == Absent(stored[k])
  {
  }

  /** The stored rows that come out different, in their business fields or in their flags. */
  function Altered<K, V(==)>(before: map<K, Cell<V>>, after: map<K, Cell<V>>): set<K> {
    set k | k in before && k in after && after[k] != before[k]
  }

  /** The altered rows that the snapshot names. */
  function Rewritten<K, V(==)>(before: map<K, Cell<V>>, after: map<K, Cell<V>>, incoming: map<K, Cell<V>>): set<K> {
    set k | k in Altered(before, after) && k in incoming
  }

  /** The stored rows that the snapshot does not name and that are still present or active. */
  function Dropped<K, V>(stored: map<K, Cell<V>>, incoming: map<K, Cell<V>>): set<K> {
    set k | k in stored && k !in incoming && Flagged(stored[k])
  }

  lemma NewKeys<K(!new), V>(stored: map<K, Cell<V>>, incoming: map<K, Cell<V>>)
    ensures After(stored, incoming).Keys - stored.Keys == KeysOf(stored, incoming, New)
  {
    hide After;
    AfterAt(stored, incoming);
  }

  lemma ChangedKeys<K(!new), V>(stored: map<K, Cell<V>>, incoming: map<K, Cell<V>>)
    ensures Rewritten(stored, After(stored, incoming), incoming) == KeysOf(stored, incoming, Changed)
  {
    hide After;
    AfterAt(stored, incoming);
  }

  /** What the plan of one resource says about applying it: "new" counts the rows that appear, and "changed" the
      rows named by the snapshot that come out different. Nothing disappears. A row that is not named keeps its
      business fields and ends neither present nor active. */
  lemma CountsPredict<K(!new), V>(stored: map<K, Cell<V>>, incoming: map<K, Cell<V>>)
    ensures var c, after := CountsOf(stored, incoming), After(stored, incoming);
            && c.added == |after.Keys - stored.Keys|
            && c.changed == |Rewritten(stored, after, incoming)|
            && stored.Keys <= after.Keys
            && (forall k :: k in incoming ==> k in after && after[k] == incoming[k])
            && (forall k :: k in stored && k !in incoming ==>
                  after[k].fields == stored[k].fields && !after[k].present && after[k].active != Some(true))
  {
    hide After, KeysOf;
    AfterAt(stored, incoming);
    NewKeys(stored, incoming);
    ChangedKeys(stored, incoming);
  }

  /** Applying alters the rows that are counted as changed, and besides them, counted by no change, exactly the
      dropped rows, which lose their flags. */
  lemma AlteredExactly<K(!new), V>(stored: map<K, Cell<V>>, incoming: map<K, Cell<V>>)
    ensures var altered := Altered(stored, After(stored, incoming));
            && altered == KeysOf(stored, incoming, Changed) + Dropped(stored, incoming)
            && |altered| == CountsOf(stored, incoming).changed + |Dropped(stored, incoming)|
            && Dropped(stored, incoming) <= stored.Keys - incoming.Keys
  {
    AfterAt(stored, incoming);
    var changed, dropped := KeysOf(stored, incoming, Changed), Dropped(stored, incoming);
    assert Altered(stored, After(stored, incoming)) == changed + dropped;
    assert changed !! dropped;
  }

  /** So "changed" counts every altered row if and only if every row that is not named is neither present nor
      active already. */
  lemma ChangedCountsAllExactly<K(!new), V>(stored: map<K, Cell<V>>, incoming: map<K, Cell<V>>)
    ensures |Altered(stored, After(stored, incoming))| == CountsOf(stored, incoming).changed <==>
            forall k :: k in stored && k !in incoming ==> !Flagged(stored[k])
  {
    AlteredExactly(stored, incoming);
    var dropped := Dropped(stored, incoming);
    assert forall k :: k in stored && k !in incoming && Flagged(stored[k]) ==> k in dropped;
    assert dropped != {} ==> exists k :: k in dropped;
  }

  /** Planning again after applying finds nothing to do, and the same rows to retain. */
  lemma CountsSettle<K(!new), V>(stored: map<K, Cell<V>>, incoming: map<K, Cell<V>>)
    ensures CountsOf(After(stored, incoming), incoming) == Counts(0, 0, |incoming|)
    ensures After(stored, incoming).Keys - incoming.Keys == stored.Keys - incoming.Keys
  {
    var after := After(stored, incoming);
    AfterAt(stored, incoming);
    assert KeysOf(after, incoming, New) == {} && KeysOf(after, incoming, Changed) == {};
    assert KeysOf(after, incoming, Unchanged) == incoming.Keys;
  }

  /** Applying the same snapshot again changes no row. */
  lemma AfterFixed<K(!new), V>(stored: map<K, Cell<V>>, incoming: map<K, Cell<V>>)
    ensures After(After(stored, incoming), incoming) == After(stored, incoming)
  {
    AfterAt(stored, incoming);
    AfterAt(After(stored, incoming), incoming);
  }
}
