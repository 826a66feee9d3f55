/** DigiSac contacts: the timestamp-aware upsert (`src/core/digisac_contact_repository.py`), the planner's
    classification of a contact (`src/core/digisac_acessorias_reconciliation.py`), and the merge of
    duplicates in one acquisition (`src/core/digisac_contact_backfill.py`). */
module Contacts {
  import opened Common

  datatype Value = Text(text: string) | Flag(flag: bool) | Time(time: int)

  /** The provider fields, in the order of the source's tuple of names: name, alternative_name,
      internal_name, raw_number, normalized_number, raw_email, normalized_email, is_group, account_id,
      service_id, provider_created_at, provider_updated_at, provider_deleted_at. */
  const FIELD_COUNT := 13
  const UPDATED_AT := 11

  type Fields = f: seq<Option<Value>> | |f| == FIELD_COUNT && (f[UPDATED_AT].Some? ==> f[UPDATED_AT].value.Time?)
    witness seq(FIELD_COUNT, i => None)

  function UpdatedAt(f: Fields): Option<int> {
    if f[UPDATED_AT].Some? then Some(f[UPDATED_AT].value.time) else None
  }

  datatype Contact = Contact(externalId: string, fields: Fields)

  datatype ContactRow = ContactRow(id: nat, fields: Fields, lastSeen: int, lastSource: string)

  // ---- The upsert --------------------------------------------------------------------------------

  predicate IsOlder(known: Fields, incoming: Fields) {
    UpdatedAt(known).Some? && UpdatedAt(incoming).Some? && UpdatedAt(incoming).value < UpdatedAt(known).value
  }

  predicate IsUnordered(known: Fields, incoming: Fields) {
    UpdatedAt(known).Some? && UpdatedAt(incoming).None?
  }

  /** One field after the merge of an observation into a row. */
  function FieldAfter(known: Fields, incoming: Fields, i: nat): Option<Value>
    requires i < FIELD_COUNT
  {
    if incoming[i].None? || IsOlder(known, incoming) || (IsUnordered(known, incoming) && known[i].Some?) then known[i]
    else incoming[i]
  }

  function Merge(known: Fields, incoming: Fields): Fields {
    seq(FIELD_COUNT, i requires 0 <= i < FIELD_COUNT => FieldAfter(known, incoming, i))
  }

  /** What a merge stores, by the two times: an older observation changes nothing; one without a time, against a
      known time, fills exactly the nulls; any other stores every field that it has, and keeps the rest. */
  ghost predicate MergedByTime(known: Fields, incoming: Fields, merged: Fields) {
    var was, at := UpdatedAt(known), UpdatedAt(incoming);
    if was.Some? && at.Some? && at.value < was.value then merged == known
    else if was.Some? && at.None? then
      forall i :: 0 <= i < FIELD_COUNT ==> merged[i] == if known[i].Some? then known[i] else incoming[i]
    else
      forall i :: 0 <= i < FIELD_COUNT ==> merged[i] == if incoming[i].Some? then incoming[i] else known[i]
  }

  lemma MergeMeaning(known: Fields, incoming: Fields)
    ensures MergedByTime(known, incoming, Merge(known, incoming))
  {
    var merged := Merge(known, incoming);
    assert forall i :: 0 <= i < FIELD_COUNT ==> merged[i] == FieldAfter(known, incoming, i);
  }

  function RowAfter(row: ContactRow, c: Contact, source: string, observed: int): ContactRow {
    row.(fields := Merge(row.fields, c.fields),
         lastSeen := if row.lastSeen < observed then observed else row.lastSeen,
         lastSource := if IsOlder(row.fields, c.fields) || IsUnordered(row.fields, c.fields) then row.lastSource else source)
  }

  function Upserted(rows: map<string, ContactRow>, next: nat, c: Contact, source: string, observed: int)
    : map<string, ContactRow>
  {
    rows[c.externalId := if c.externalId in rows then RowAfter(rows[c.externalId], c, source, observed)
                         else ContactRow(next, c.fields, observed, source)]
  }

  /** The field loop of `_upsert_digisac_contact_cursor`, with the assignment of `provider_updated_at`
      that follows it. */
  method MergeFields(known: Fields, incoming: Fields) returns (merged: Fields)
    ensures merged == Merge(known, incoming) && MergedByTime(known, incoming, merged)
  {
    MergeMeaning(known, incoming);
    var older, unordered := IsOlder(known, incoming), IsUnordered(known, incoming);
    merged := known;
    for i := 0 to FIELD_COUNT
      invariant forall j :: 0 <= j < i ==> merged[j] == FieldAfter(known, incoming, j)
      invariant forall j :: i <= j < FIELD_COUNT ==> merged[j] == known[j]
    {
      if !(incoming[i].None? || older || (unordered && known[i].Some?)) {
        merged := merged[i := incoming[i]];
      }
    }
    if UpdatedAt(known).Some? && (UpdatedAt(incoming).None? || UpdatedAt(incoming).value < UpdatedAt(known).value) {
      merged := merged[UPDATED_AT := known[UPDATED_AT]];
    } else if UpdatedAt(incoming).Some? {
      merged := merged[UPDATED_AT := incoming[UPDATED_AT]];
    }
  }

  /** The upsert is idempotent on the provider fields. */
  lemma MergeIdempotent(known: Fields, incoming: Fields)
    ensures Merge(Merge(known, incoming), incoming) == Merge(known, incoming)
  {
    var once := Merge(known, incoming);
    assert once[UPDATED_AT] == FieldAfter(known, incoming, UPDATED_AT);
    forall i | 0 <= i < FIELD_COUNT ensures Merge(once, incoming)[i] == once[i] {
      assert once[i] == FieldAfter(known, incoming, i);
    }
  }

  /** The upsert never lowers the provider's time or the time of sight, and never forgets a known field. */
  lemma UpsertMonotone(row: ContactRow, c: Contact, source: string, observed: int)
    ensures var next := RowAfter(row, c, source, observed);
            && next.id == row.id
            && row.lastSeen <= next.lastSeen && observed <= next.lastSeen
            && (UpdatedAt(row.fields).Some? ==>
                  UpdatedAt(next.fields).Some? && UpdatedAt(row.fields).value <= UpdatedAt(next.fields).value)
            && (forall i :: 0 <= i < FIELD_COUNT && row.fields[i].Some? ==> next.fields[i].Some?)
            && (forall i :: 0 <= i < FIELD_COUNT && row.fields[i].None? ==>
                  next.fields[i] == c.fields[i] || IsOlder(row.fields, c.fields))
  {
    var next := RowAfter(row, c, source, observed);
    assert next.fields[UPDATED_AT] == FieldAfter(row.fields, c.fields, UPDATED_AT);
  }

  /** The row after an upsert: the merged fields, the later sight, and the source of the observation unless it is
      older or has no time against a known one. A first observation is stored as it is. */
  lemma UpsertMeaning(rows: map<string, ContactRow>, next: nat, c: Contact, source: string, observed: int)
    ensures var after := Upserted(rows, next, c, source, observed);
            && after.Keys == rows.Keys + {c.externalId}
            && (forall id :: id in rows && id != c.externalId ==> after[id] == rows[id])
            && var row := after[c.externalId];
               if c.externalId in rows then
                 var before := rows[c.externalId];
                 var was, at := UpdatedAt(before.fields), UpdatedAt(c.fields);
                 && row.id == before.id && MergedByTime(before.fields, c.fields, row.fields)
                 && row.lastSeen >= before.lastSeen && row.lastSeen >= observed && row.lastSeen in {before.lastSeen, observed}
                 && row.lastSource ==
                    if was.Some? && (at.None? || at.value < was.value) then before.lastSource else source
               else row.id == next && row.fields == c.fields && row.lastSeen == observed && row.lastSource == source
  {
    if c.externalId in rows { MergeMeaning(rows[c.externalId].fields, c.fields); }
  }

  // ---- The planner's classification -----------------------------------------------------------------

  datatype Kind = New | Changed | Unchanged | Older | Unordered

  /** The kind of a contact, from what the upsert would make of its row. */
  function KindOf(row: Option<ContactRow>, c: Contact): Kind {
    if row.None? then New
    else
      var known := row.value.fields;
      if IsOlder(known, c.fields) then Older
      else if Merge(known, c.fields) == known then Unchanged
      else if IsUnordered(known, c.fields) then Unordered
      else Changed
  }

  /** The observation has a field that the row has otherwise, or not at all. */
  ghost predicate Differs(known: Fields, incoming: Fields) {
    exists i :: 0 <= i < FIELD_COUNT && incoming[i].Some? && known[i] != incoming[i]
  }

  ghost predicate FillsNull(known: Fields, incoming: Fields) {
    exists i :: 0 <= i < FIELD_COUNT && incoming[i].Some? && known[i].None?
  }

  /** The kinds, by the two times and the fields. */
  lemma KindMeaning(row: Option<ContactRow>, c: Contact)
    ensures var kind := KindOf(row, c);
            && (kind == New <==> row.None?)
            && (row.Some? ==>
                  var known := row.value.fields;
                  var was, at := UpdatedAt(known), UpdatedAt(c.fields);
                  && (kind == Older <==> was.Some? && at.Some? && at.value < was.value)
                  && (kind == Unordered <==> was.Some? && at.None? && FillsNull(known, c.fields))
                  && (kind == Changed <==>
                        (was.None? || (at.Some? && at.value >= was.value)) && Differs(known, c.fields)))
  {
    if row.Some? {
      var known := row.value.fields;
      var merged := Merge(known, c.fields);
      MergeMeaning(known, c.fields);
      if merged != known { var i :| 0 <= i < FIELD_COUNT && merged[i] != known[i]; }
    }
  }

  /** `_contact_change_kind`: the planner's own loop over the fields agrees with the upsert. */
  method ContactChangeKind(row: Option<ContactRow>, c: Contact) returns (kind: Kind)
    ensures kind == KindOf(row, c)
    ensures kind in {Unchanged, Older} <==> row.Some? && Merge(row.value.fields, c.fields) == row.value.fields
  {
    if row.None? {
      return New;
    }
    var known := row.value.fields;
    var older, unordered := IsOlder(known, c.fields), IsUnordered(known, c.fields);
    var changed := false;
    for i := 0 to FIELD_COUNT
      invariant changed <==> exists j :: 0 <= j < i && FieldAfter(known, c.fields, j) != known[j]
    {
      var value := if c.fields[i].None? || older || (unordered && known[i].Some?) then known[i] else c.fields[i];
      if value != known[i] {
        changed := true;
      }
    }
    assert changed <==> Merge(known, c.fields) != known by {
      if Merge(known, c.fields) != known {
        var j :| 0 <= j < FIELD_COUNT && Merge(known, c.fields)[j] != known[j];
      }
    }
    OlderChangesNothing(known, c.fields);
    if older {
      return Older;
    }
    if unordered {
      return if changed then Unordered else Unchanged;
    }
    return if changed then Changed else Unchanged;
  }

  lemma OlderChangesNothing(known: Fields, incoming: Fields)
    ensures IsOlder(known, incoming) ==> Merge(known, incoming) == known
  {
  }

  /** A kind other than unchanged and older is exactly an upsert that alters a provider field, or inserts. */
  lemma KindMeansChange(row: Option<ContactRow>, c: Contact)
    ensures KindOf(row, c) in {Unchanged, Older} <==> row.Some? && Merge(row.value.fields, c.fields) == row.value.fields
  {
    if row.Some? { OlderChangesNothing(row.value.fields, c.fields); }
  }

  /** After its upsert a contact is unchanged or older. */
  lemma UpsertSettlesKind(rows: map<string, ContactRow>, next: nat, c: Contact, source: string, observed: int)
    ensures KindOf(Some(Upserted(rows, next, c, source, observed)[c.externalId]), c) in {Unchanged, Older}
  {
    var row := Upserted(rows, next, c, source, observed)[c.externalId];
    if c.externalId in rows {
      MergeIdempotent(rows[c.externalId].fields, c.fields);
    } else {
      assert Merge(c.fields, c.fields) == c.fields;
    }
    KindMeansChange(Some(row), c);
  }

  // ---- Duplicates within one acquisition ---------------------------------------------------------------

  /** The incoming duplicate is preferred: it is strictly newer, or the only one with a time. */
  predicate PrefersIncoming(existing: Fields, incoming: Fields) {
    && UpdatedAt(incoming).Some?
    && (UpdatedAt(existing).None? || UpdatedAt(incoming).value > UpdatedAt(existing).value)
  }

  function Filled(preferred: Fields, fallback: Fields): Fields {
    seq(FIELD_COUNT, i requires 0 <= i < FIELD_COUNT => if preferred[i].Some? then preferred[i] else fallback[i])
  }

  /** `_merge_duplicate_contacts`. */
  function MergeDuplicate(existing: Contact, incoming: Contact): Contact {
    if PrefersIncoming(existing.fields, incoming.fields) then
      incoming.(fields := Filled(incoming.fields, existing.fields))
    else existing.(fields := Filled(existing.fields, incoming.fields))
  }

  /** All the duplicates of one id, merged in the order in which they arrived. */
  function MergeAll(group: seq<Contact>): Contact
    requires group != []
  {
    if |group| == 1 then group[0] else MergeDuplicate(MergeAll(group[..|group| - 1]), group[|group| - 1])
  }

  /** Where the first duplicate with the greatest time stands; the first of all when none has a time. */
  function FirstGreatest(group: seq<Contact>): (p: nat)
    requires group != []
    ensures p < |group|
  {
    if |group| == 1 then 0
    else
      var p := FirstGreatest(group[..|group| - 1]);
      if PrefersIncoming(group[p].fields, group[|group| - 1].fields) then |group| - 1 else p
  }

  predicate TimeAtMost(a: Fields, b: Fields) {
    UpdatedAt(a).Some? ==> UpdatedAt(b).Some? && UpdatedAt(a).value <= UpdatedAt(b).value
  }

  /** `FirstGreatest` is what its name says. */
  lemma {:induction false} FirstGreatestMeaning(group: seq<Contact>)
    requires group != []
    ensures var p := FirstGreatest(group);
            && (forall g :: g in group ==> TimeAtMost(g.fields, group[p].fields))
            && (forall q :: 0 <= q < p ==> UpdatedAt(group[q].fields) != UpdatedAt(group[p].fields))
  {
    if |group| > 1 {
      var rest := group[..|group| - 1];
      assert group == rest + [group[|group| - 1]];
      FirstGreatestMeaning(rest);
    }
  }

  /** One merge of two duplicates. */
  lemma MergePair(a: Contact, b: Contact)
    ensures var r, kept := MergeDuplicate(a, b), if PrefersIncoming(a.fields, b.fields) then b else a;
            && r.externalId == kept.externalId && UpdatedAt(r.fields) == UpdatedAt(kept.fields)
            && forall i :: 0 <= i < FIELD_COUNT ==>
                 && (kept.fields[i].Some? ==> r.fields[i] == kept.fields[i])
                 && (r.fields[i] == a.fields[i] || r.fields[i] == b.fields[i])
                 && (r.fields[i].None? ==> a.fields[i].None? && b.fields[i].None?)
  {
  }

  /** The merged record has the greatest time of the group; the first record with that time keeps all its
      known fields; every value comes from some duplicate; and a field is null only if it is null in all. */
  lemma {:induction false} MergeAllMeaning(group: seq<Contact>)
    requires group != []
    ensures var r, p := MergeAll(group), FirstGreatest(group);
            && UpdatedAt(r.fields) == UpdatedAt(group[p].fields)
            && r.externalId == group[p].externalId
            && (forall i :: 0 <= i < FIELD_COUNT && group[p].fields[i].Some? ==> r.fields[i] == group[p].fields[i])
            && (forall i :: 0 <= i < FIELD_COUNT ==> exists g :: g in group && g.fields[i] == r.fields[i])
            && (forall i, g :: 0 <= i < FIELD_COUNT && g in group && r.fields[i].None? ==> g.fields[i].None?)
  {
    hide MergeDuplicate, UpdatedAt;
    if |group| == 1 {
      assert group[0] in group;
    } else {
      var rest, last := group[..|group| - 1], group[|group| - 1];
      assert group == rest + [last];
      MergeAllMeaning(rest);
      MergePair(MergeAll(rest), last);
      forall i | 0 <= i < FIELD_COUNT ensures exists g :: g in group && g.fields[i] == MergeAll(group).fields[i] {
        var g :| g in rest && g.fields[i] == MergeAll(rest).fields[i];
        assert g in group && last in group;
      }
    }
  }
}
