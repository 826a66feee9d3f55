/** The DigiSac half of a manual reconciliation: the contacts table, the counts of kinds, and the upserts
    in sorted order. `src/core/digisac_acessorias_reconciliation.py`. */
module ContactReconciliation {
  import opened Common
  import opened Sorting
  import opened Contacts

  function Lookup<K, V>(m: map<K, V>, k: K): Option<V> { if k in m then Some(m[k]) else None }

  /** `digisac_contacts`: the rows by external id, and the identity sequence. */
  datatype ContactTable = ContactTable(rows: map<string, ContactRow>, next: nat)

  function Store(t: ContactTable, c: Contact, source: string, observed: int): ContactTable {
    ContactTable(Upserted(t.rows, t.next, c, source, observed), if c.externalId in t.rows then t.next else t.next + 1)
  }

  /** The identity sequence moves on only for a new contact, which gets its number. */
  lemma StoreMeaning(t: ContactTable, c: Contact, source: string, observed: int)
    ensures var after := Store(t, c, source, observed);
            && (c.externalId in t.rows ==> after.next == t.next)
            && (c.externalId !in t.rows ==> after.next == t.next + 1 && after.rows[c.externalId].id == t.next)
  {
  }

  function StoreAll(t: ContactTable, cs: seq<Contact>, source: string, observed: int): ContactTable {
    if cs == [] then t else Store(StoreAll(t, cs[..|cs| - 1], source, observed), cs[|cs| - 1], source, observed)
  }

  ghost predicate IdsDistinct(cs: seq<Contact>) {
    forall i, j :: 0 <= i < j < |cs| ==> cs[i].externalId != cs[j].externalId
  }

  function ById(c: Contact): string { c.externalId }

  /** Sorting keeps the contacts, and keeps their ids distinct. */
  lemma SortDistinct(cs: seq<Contact>)
    requires IdsDistinct(cs)
    ensures IdsDistinct(Sort(cs, ById)) && |Sort(cs, ById)| == |cs|
    ensures forall c :: c in Sort(cs, ById) <==> c in cs
  {
    SameElements(Sort(cs, ById), cs);
    SortDiffers(cs, ById);
  }

  ghost predicate StoredAs(t: ContactTable, after: map<string, ContactRow>, c: Contact, source: string, observed: int) {
    && c.externalId in after
    && if c.externalId in t.rows then after[c.externalId] == RowAfter(t.rows[c.externalId], c, source, observed)
       else after[c.externalId].fields == c.fields
  }

  /** What storing distinct contacts does to each row. */
  lemma {:induction false} StoreAllAt(t: ContactTable, cs: seq<Contact>, source: string, observed: int, id: string)
    requires IdsDistinct(cs)
    ensures var after := StoreAll(t, cs, source, observed).rows;
            && (id in after <==> id in t.rows || exists c :: c in cs && c.externalId == id)
            && ((forall c :: c in cs ==> c.externalId != id) ==> Lookup(after, id) == Lookup(t.rows, id))
            && (forall c :: c in cs && c.externalId == id ==> StoredAs(t, after, c, source, observed))
  {
    if cs != [] {
      var rest, last := cs[..|cs| - 1], cs[|cs| - 1];
      assert cs == rest + [last];
      StoreAllAt(t, rest, source, observed, id);
      StoreAllAt(t, rest, source, observed, last.externalId);
    }
  }

  function KindAt(rows: map<string, ContactRow>, c: Contact): Kind { KindOf(Lookup(rows, c.externalId), c) }

  function IdsOfKind(rows: map<string, ContactRow>, cs: seq<Contact>, kind: Kind): set<string> {
    if cs == [] then {}
    else IdsOfKind(rows, cs[..|cs| - 1], kind) + if KindAt(rows, cs[|cs| - 1]) == kind then {cs[|cs| - 1].externalId} else {}
  }

  lemma {:induction false} IdsOfKindMeaning(rows: map<string, ContactRow>, cs: seq<Contact>, kind: Kind, id: string)
    ensures id in IdsOfKind(rows, cs, kind) <==> exists c :: c in cs && c.externalId == id && KindAt(rows, c) == kind
  {
    if cs != [] {
      assert cs == cs[..|cs| - 1] + [cs[|cs| - 1]];
      IdsOfKindMeaning(rows, cs[..|cs| - 1], kind, id);
    }
  }

  function CountKind(rows: map<string, ContactRow>, cs: seq<Contact>, kind: Kind): nat {
    if cs == [] then 0
    else CountKind(rows, cs[..|cs| - 1], kind) + if KindAt(rows, cs[|cs| - 1]) == kind then 1 else 0
  }

  /** The count of a kind is the number of its ids. */
  lemma {:induction false} CountKindMeaning(rows: map<string, ContactRow>, cs: seq<Contact>, kind: Kind)
    requires IdsDistinct(cs)
    ensures CountKind(rows, cs, kind) == |IdsOfKind(rows, cs, kind)|
  {
    if cs != [] {
      var rest := cs[..|cs| - 1];
      CountKindMeaning(rows, rest, kind);
      IdsOfKindMeaning(rows, rest, kind, cs[|cs| - 1].externalId);
    }
  }

  /** The counter dictionary. The source adds its keys `older` and `unordered` on first use. */
  datatype KindCounts = KindCounts(added: nat, changed: nat, same: nat, older: nat, unordered: nat) {
    function Total(): nat { added + changed + same + older + unordered }
  }

  function KindCountsOf(rows: map<string, ContactRow>, cs: seq<Contact>): KindCounts {
    KindCounts(CountKind(rows, cs, New), CountKind(rows, cs, Changed), CountKind(rows, cs, Unchanged),
               CountKind(rows, cs, Older), CountKind(rows, cs, Unordered))
  }

  function Plus(counts: KindCounts, kind: Kind): KindCounts {
    match kind
    case New => counts.(added := counts.added + 1)
    case Changed => counts.(changed := counts.changed + 1)
    case Unchanged => counts.(same := counts.same + 1)
    case Older => counts.(older := counts.older + 1)
    case Unordered => counts.(unordered := counts.unordered + 1)
  }

  lemma KindCountsAppend(rows: map<string, ContactRow>, cs: seq<Contact>, i: nat)
    requires i < |cs|
    ensures KindCountsOf(rows, cs[..i + 1]) == Plus(KindCountsOf(rows, cs[..i]), KindAt(rows, cs[i]))
  {
    assert cs[..i + 1][..i] == cs[..i];
  }

  lemma IdsOfKindSorted(rows: map<string, ContactRow>, cs: seq<Contact>, kind: Kind)
    requires IdsDistinct(cs)
    ensures IdsOfKind(rows, Sort(cs, ById), kind) == IdsOfKind(rows, cs, kind)
    ensures CountKind(rows, Sort(cs, ById), kind) == CountKind(rows, cs, kind)
  {
    SortDistinct(cs);
    CountKindMeaning(rows, cs, kind);
    CountKindMeaning(rows, Sort(cs, ById), kind);
    forall id ensures id in IdsOfKind(rows, Sort(cs, ById), kind) <==> id in IdsOfKind(rows, cs, kind) {
      IdsOfKindMeaning(rows, cs, kind, id);
      IdsOfKindMeaning(rows, Sort(cs, ById), kind, id);
    }
  }

  lemma KindCountsSorted(rows: map<string, ContactRow>, cs: seq<Contact>)
    requires IdsDistinct(cs)
    ensures KindCountsOf(rows, Sort(cs, ById)) == KindCountsOf(rows, cs)
  {
    IdsOfKindSorted(rows, cs, New);
    IdsOfKindSorted(rows, cs, Changed);
    IdsOfKindSorted(rows, cs, Unchanged);
    IdsOfKindSorted(rows, cs, Older);
    IdsOfKindSorted(rows, cs, Unordered);
  }

  /** The counting loop of the planner, over the contacts in sorted order. */
  method CountContacts(rows: map<string, ContactRow>, cs: seq<Contact>) returns (counts: KindCounts)
    requires IdsDistinct(cs)
    ensures counts == KindCountsOf(rows, cs)
  {
    SortDistinct(cs);
    KindCountsSorted(rows, cs);
    var order := Sort(cs, ById);
    counts := KindCounts(0, 0, 0, 0, 0);
    for i := 0 to |order|
      invariant counts == KindCountsOf(rows, order[..i])
    {
      var kind := ContactChangeKind(Lookup(rows, order[i].externalId), order[i]);
      KindCountsAppend(rows, order, i);
      counts := Plus(counts, kind);
    }
    assert order[..|order|] == order;
  }

  /** Every contact has one kind, so the five counts add up to their number. */
  lemma {:induction false} KindsSum(rows: map<string, ContactRow>, cs: seq<Contact>)
    ensures KindCountsOf(rows, cs).Total() == |cs|
  {
    if cs != [] {
      KindsSum(rows, cs[..|cs| - 1]);
      KindCountsAppend(rows, cs, |cs| - 1);
      assert cs[..|cs|] == cs;
    }
  }

  /** The rows whose provider fields a storing altered. */
  function FieldsAltered(before: map<string, ContactRow>, after: map<string, ContactRow>): set<string> {
    set id | id in before && id in after && after[id].fields != before[id].fields
  }

  lemma KindPredicts(t: ContactTable, cs: seq<Contact>, source: string, observed: int, id: string)
    requires IdsDistinct(cs)
    ensures var after := StoreAll(t, cs, source, observed).rows;
            && (id in t.rows ==> id in after)
            && (id in IdsOfKind(t.rows, cs, New) <==> id in after && id !in t.rows)
            && (id in IdsOfKind(t.rows, cs, Changed) || id in IdsOfKind(t.rows, cs, Unordered) <==>
                  id in t.rows && id in after && after[id].fields != t.rows[id].fields)
            && !(id in IdsOfKind(t.rows, cs, Changed) && id in IdsOfKind(t.rows, cs, Unordered))
  {
    StoreAllAt(t, cs, source, observed, id);
    IdsOfKindMeaning(t.rows, cs, New, id);
    IdsOfKindMeaning(t.rows, cs, Changed, id);
    IdsOfKindMeaning(t.rows, cs, Unordered, id);
    if c :| c in cs && c.externalId == id {
      KindMeansChange(Lookup(t.rows, id), c);
      assert forall d :: d in cs && d.externalId == id ==> d == c;
    }
  }

  /** The plan of the contacts is exact: "new" are the rows that appear; "changed" and "unordered", which
      the total of changes leaves out, are together the rows whose provider fields are altered. */
  lemma KindsPredict(t: ContactTable, cs: seq<Contact>, source: string, observed: int)
    requires IdsDistinct(cs)
    ensures var after, counts := StoreAll(t, Sort(cs, ById), source, observed).rows, KindCountsOf(t.rows, cs);
            && t.rows.Keys <= after.Keys
            && counts.added == |after.Keys - t.rows.Keys|
            && counts.changed + counts.unordered == |FieldsAltered(t.rows, after)|
  {
    SortDistinct(cs);
    KindCountsSorted(t.rows, cs);
    var order := Sort(cs, ById);
    var after := StoreAll(t, order, source, observed).rows;
    forall id
      ensures id in t.rows ==> id in after
      ensures id in IdsOfKind(t.rows, order, New) <==> id in after.Keys - t.rows.Keys
      ensures id in IdsOfKind(t.rows, order, Changed) + IdsOfKind(t.rows, order, Unordered) <==>
              id in FieldsAltered(t.rows, after)
      ensures !(id in IdsOfKind(t.rows, order, Changed) && id in IdsOfKind(t.rows, order, Unordered))
    {
      KindPredicts(t, order, source, observed, id);
    }
    assert IdsOfKind(t.rows, order, New) == after.Keys - t.rows.Keys;
    CountKindMeaning(t.rows, order, New);
    CountKindMeaning(t.rows, order, Changed);
    CountKindMeaning(t.rows, order, Unordered);
    Unite(IdsOfKind(t.rows, order, Changed), IdsOfKind(t.rows, order, Unordered), FieldsAltered(t.rows, after));
  }

  lemma Unite<T>(a: set<T>, b: set<T>, c: set<T>)
    requires a !! b && a + b == c
    ensures |a| + |b| == |c|
  {
  }

  lemma KindSettles(t: ContactTable, cs: seq<Contact>, source: string, observed: int, kind: Kind)
    requires IdsDistinct(cs) && kind in {New, Changed, Unordered}
    ensures CountKind(StoreAll(t, cs, source, observed).rows, cs, kind) == 0
  {
    var after := StoreAll(t, cs, source, observed).rows;
    forall c | c in cs ensures KindAt(after, c) in {Unchanged, Older} {
      StoreAllAt(t, cs, source, observed, c.externalId);
      UpsertSettlesKind(t.rows, t.next, c, source, observed);
      if c.externalId !in t.rows {
        assert Merge(c.fields, c.fields) == c.fields;
        KindMeansChange(Some(after[c.externalId]), c);
      }
    }
    forall id ensures id !in IdsOfKind(after, cs, kind) { IdsOfKindMeaning(after, cs, kind, id); }
    CountKindMeaning(after, cs, kind);
  }

  /** Planning again finds no contact that is new, changed or unordered. */
  lemma KindsSettle(t: ContactTable, cs: seq<Contact>, source: string, observed: int)
    requires IdsDistinct(cs)
    ensures var c := KindCountsOf(StoreAll(t, Sort(cs, ById), source, observed).rows, cs);
            c.added == 0 && c.changed == 0 && c.unordered == 0
  {
    SortDistinct(cs);
    KindCountsSorted(StoreAll(t, Sort(cs, ById), source, observed).rows, cs);
    KindSettles(t, Sort(cs, ById), source, observed, New);
    KindSettles(t, Sort(cs, ById), source, observed, Changed);
    KindSettles(t, Sort(cs, ById), source, observed, Unordered);
  }
}
