/** Directory tables: rows with a surrogate id, addressed by their unique key, that are inserted, updated
    and marked absent, and never deleted. */
module Tables {
  import opened Common

  /** The columns of a row that are not keys or times. `active` is nullable. */
  datatype Cell<V> = Cell(fields: V, present: bool, active: Option<bool>)

  datatype Row<V> = Row(id: nat, cell: Cell<V>)

  /** `next` is the identity sequence; every insert attempt draws from it, also one that updates. */
  datatype Table<K, V> = Table(rows: map<K, Row<V>>, next: nat)

  ghost predicate Valid<K(!new), V>(t: Table<K, V>) {
    && (forall k :: k in t.rows ==> t.rows[k].id < t.next)
    && (forall a, b :: a in t.rows && b in t.rows && t.rows[a].id == t.rows[b].id ==> a == b)
  }

  /** No row is lost, and no row changes its id. */
  ghost predicate Keeps<K(!new), V>(before: Table<K, V>, after: Table<K, V>) {
    forall k :: k in before.rows ==> k in after.rows && after.rows[k].id == before.rows[k].id
  }

  /** INSERT ... ON CONFLICT DO UPDATE. */
  function Upsert<K, V>(t: Table<K, V>, k: K, cell: Cell<V>): (r: Table<K, V>)
    ensures r.next == t.next + 1
    ensures r.rows.Keys == t.rows.Keys + {k}
  {
    Table(t.rows[k := Row(if k in t.rows then t.rows[k].id else t.next, cell)], t.next + 1)
  }

  predicate Flagged<V>(cell: Cell<V>) { cell.present || cell.active == Some(true) }

  /** Marking absent. A row that is neither present nor active is not touched, so a null stays null. */
  function Absent<V>(cell: Cell<V>): Cell<V> {
    if Flagged(cell) then cell.(present := false, active := Some(false)) else cell
  }

  function MarkAbsent<K, V>(t: Table<K, V>, keep: set<K>): (r: Table<K, V>)
    ensures r.next == t.next && r.rows.Keys == t.rows.Keys
  {
    t.(rows := map k | k in t.rows :: if k in keep then t.rows[k] else t.rows[k].(cell := Absent(t.rows[k].cell)))
  }

  function Cells<K, V>(t: Table<K, V>): (m: map<K, Cell<V>>)
    ensures m.Keys == t.rows.Keys
  {
    map k | k in t.rows :: t.rows[k].cell
  }

  function Cleared<K, V>(cells: map<K, Cell<V>>, keep: set<K>): (m: map<K, Cell<V>>)
    ensures m.Keys == cells.Keys
  {
    map k | k in cells :: if k in keep then cells[k] else Absent(cells[k])
  }

  lemma UpsertKeeps<K(!new), V>(t: Table<K, V>, k: K, cell: Cell<V>)
    requires Valid(t)
    ensures Valid(Upsert(t, k, cell)) && Keeps(t, Upsert(t, k, cell))
    ensures Cells(Upsert(t, k, cell)) == Cells(t)[k := cell]
  {
  }

  lemma MarkKeeps<K(!new), V>(t: Table<K, V>, keep: set<K>)
    requires Valid(t)
    ensures Valid(MarkAbsent(t, keep)) && Keeps(t, MarkAbsent(t, keep))
    ensures Cells(MarkAbsent(t, keep)) == Cleared(Cells(t), keep)
  {
  }

  // ---- What a complete snapshot says ---------------------------------------------------------

  datatype Item<K, V> = Item(key: K, cell: Cell<V>)

  /** The cells that a list of items leaves, upserted one by one. */
  function Overlay<K, V>(items: seq<Item<K, V>>): map<K, Cell<V>> {
    if items == [] then map[]
    else Overlay(items[..|items| - 1])[items[|items| - 1].key := items[|items| - 1].cell]
  }

  ghost predicate Consistent<K(!new), V(!new)>(items: seq<Item<K, V>>) {
    forall x, y :: x in items && y in items && x.key == y.key ==> x.cell == y.cell
  }

  lemma OverlayAppend<K, V>(items: seq<Item<K, V>>, x: Item<K, V>)
    ensures Overlay(items + [x]) == Overlay(items)[x.key := x.cell]
  {
    assert (items + [x])[..|items|] == items;
  }

  /** Consistent items leave, for each of their keys, the cell they give it. */
  lemma {:induction false} OverlayMeaning<K(!new), V(!new)>(items: seq<Item<K, V>>)
    requires Consistent(items)
    ensures forall x :: x in items ==> x.key in Overlay(items) && Overlay(items)[x.key] == x.cell
    ensures forall k :: k in Overlay(items) ==> exists x :: x in items && x.key == k
  {
    if items != [] {
      var rest, last := items[..|items| - 1], items[|items| - 1];
      assert items == rest + [last];
      assert Consistent(rest);
      OverlayMeaning(rest);
    }
  }

  /** The order in which consistent items are upserted does not matter, nor does repetition. */
  lemma OverlayBySet<K(!new), V(!new)>(a: seq<Item<K, V>>, b: seq<Item<K, V>>)
    requires Consistent(a) && forall x :: x in a <==> x in b
    ensures Overlay(a) == Overlay(b)
  {
    assert Consistent(b);
    OverlayMeaning(a);
    OverlayMeaning(b);
    forall k ensures k in Overlay(a) <==> k in Overlay(b) {
      if k in Overlay(a) { var x :| x in a && x.key == k; }
      if k in Overlay(b) { var x :| x in b && x.key == k; }
    }
    forall k | k in Overlay(a) ensures Overlay(a)[k] == Overlay(b)[k] {
      var x :| x in a && x.key == k;
    }
  }

  /** The two publication orders: mark everything absent and then upsert, or upsert and then mark what
      the snapshot does not name. They leave the same cells. */
  lemma OrdersAgree<K(!new), V(!new)>(cells: map<K, Cell<V>>, incoming: map<K, Cell<V>>)
    ensures Cleared(cells, {}) + incoming == Cleared(cells + incoming, incoming.Keys)
  {
  }
}
