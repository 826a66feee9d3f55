/** Exclusive message ownership: `_save_cycle_messages_sync` of `src/core/conversation_cycle_repository.py`
    over the table `conversation_cycle_messages`. */
module CycleMessages {
  import opened Common

  datatype Message = Message(id: string, kind: string, timestamp: int)

  datatype Entry = Entry(position: nat, kind: string, timestamp: int)

  /** The rows by their primary key: cycle and message id. */
  type Memberships = map<(nat, string), Entry>

  /** No message is in two cycles. */
  ghost predicate Exclusive(rows: Memberships) {
    forall c, d, m :: (c, m) in rows && (d, m) in rows ==> c == d
  }

  /** No two messages of a cycle have the same position. */
  ghost predicate PositionsDistinct(rows: Memberships) {
    forall c, m, n :: (c, m) in rows && (c, n) in rows && rows[(c, m)].position == rows[(c, n)].position ==> m == n
  }

  /** Another cycle has the message. */
  predicate Elsewhere(rows: Memberships, cycle: nat, id: string) {
    exists k :: k in rows && k.1 == id && k.0 != cycle
  }

  function Others(rows: Memberships, cycle: nat): Memberships { map k | k in rows && k.0 != cycle :: rows[k] }

  /** The rows after saving `ms` as the messages of `cycle`. */
  function Saved(rows: Memberships, cycle: nat, ms: seq<Message>): Memberships {
    if ms == [] then Others(rows, cycle)
    else
      var n := |ms| - 1;
      var before := Saved(rows, cycle, ms[..n]);
      if Elsewhere(rows, cycle, ms[n].id) then before
      else before[(cycle, ms[n].id) := Entry(n, ms[n].kind, ms[n].timestamp)]
  }

  /** The ids of `ms` that another cycle has, or has not, in order. */
  function IdsWhere(rows: Memberships, cycle: nat, ms: seq<Message>, elsewhere: bool): seq<string> {
    if ms == [] then []
    else
      IdsWhere(rows, cycle, ms[..|ms| - 1], elsewhere) +
      if Elsewhere(rows, cycle, ms[|ms| - 1].id) == elsewhere then [ms[|ms| - 1].id] else []
  }

  lemma {:induction false} OthersUntouched(rows: Memberships, cycle: nat, ms: seq<Message>, k: (nat, string))
    requires k.0 != cycle
    ensures k in Saved(rows, cycle, ms) <==> k in rows
    ensures k in rows ==> Saved(rows, cycle, ms)[k] == rows[k]
  {
    if ms != [] { OthersUntouched(rows, cycle, ms[..|ms| - 1], k); }
  }

  /** Saving changes no other cycle, so who owns a message elsewhere stays the same. */
  lemma ElsewhereKept(rows: Memberships, cycle: nat, ms: seq<Message>, id: string)
    ensures Elsewhere(Saved(rows, cycle, ms), cycle, id) == Elsewhere(rows, cycle, id)
  {
    var after := Saved(rows, cycle, ms);
    if k :| k in rows && k.1 == id && k.0 != cycle { OthersUntouched(rows, cycle, ms, k); }
    if k :| k in after && k.1 == id && k.0 != cycle { OthersUntouched(rows, cycle, ms, k); }
  }

  class MessageStore {
    var rows: Memberships

    constructor ()
      ensures rows == map[]
    {
      rows := map[];
    }

    /** `_save_cycle_messages_sync`. `cycle` is the row of the public id, if there is one. */
    method SaveCycleMessages(cycle: Option<nat>, ms: seq<Message>) returns (result: Result<(seq<string>, seq<string>), string>)
      modifies this
      ensures cycle.None? ==> result == Err("conversation cycle not found") && rows == old(rows)
      ensures cycle.Some? ==>
                && rows == Saved(old(rows), cycle.value, ms)
                && result == Ok((IdsWhere(old(rows), cycle.value, ms, false), IdsWhere(old(rows), cycle.value, ms, true)))
    {
      if cycle.None? {
        return Err("conversation cycle not found");
      }
      var id := cycle.value;
      var accepted, conflicts := [], [];
      rows := map k | k in rows && k.0 != id :: rows[k];
      for i := 0 to |ms|
        invariant rows == Saved(old(rows), id, ms[..i])
        invariant accepted == IdsWhere(old(rows), id, ms[..i], false)
        invariant conflicts == IdsWhere(old(rows), id, ms[..i], true)
      {
        var m := ms[i];
        assert ms[..i + 1][..i] == ms[..i];
        ElsewhereKept(old(rows), id, ms[..i], m.id);
        if exists k :: k in rows && k.1 == m.id && k.0 != id {
          conflicts := conflicts + [m.id];
        } else {
          rows := rows[(id, m.id) := Entry(i, m.kind, m.timestamp)];
          accepted := accepted + [m.id];
        }
      }
      assert ms[..|ms|] == ms;
      result := Ok((accepted, conflicts));
    }
  }

  // ---- What saving means ----------------------------------------------------------------------------

  /** Where an id stands last in the list. */
  function LastIndex(ms: seq<Message>, id: string): (last: Option<nat>)
    ensures last.Some? ==>
              && last.value < |ms| && ms[last.value].id == id
              && forall j :: last.value < j < |ms| ==> ms[j].id != id
    ensures last.None? ==> forall j :: 0 <= j < |ms| ==> ms[j].id != id
  {
    if ms == [] then None
    else if ms[|ms| - 1].id == id then Some(|ms| - 1)
    else LastIndex(ms[..|ms| - 1], id)
  }

  /** The cycle then has exactly the listed messages that no other cycle has, each at its last position,
      with what its last mention says. */
  lemma {:induction false} SavedMeaning(rows: Memberships, cycle: nat, ms: seq<Message>, id: string)
    ensures var last, after := LastIndex(ms, id), Saved(rows, cycle, ms);
            && ((cycle, id) in after <==> !Elsewhere(rows, cycle, id) && last.Some?)
            && ((cycle, id) in after && last.Some? ==>
                  after[(cycle, id)] == Entry(last.value, ms[last.value].kind, ms[last.value].timestamp))
  {
    if ms != [] {
      SavedMeaning(rows, cycle, ms[..|ms| - 1], id);
    }
  }

  /** A message is never in two cycles, whatever is saved. */
  lemma SavedExclusive(rows: Memberships, cycle: nat, ms: seq<Message>)
    requires Exclusive(rows)
    ensures Exclusive(Saved(rows, cycle, ms))
  {
    var after := Saved(rows, cycle, ms);
    forall c, d, m | (c, m) in after && (d, m) in after ensures c == d {
      SavedMeaning(rows, cycle, ms, m);
      if c != cycle { OthersUntouched(rows, cycle, ms, (c, m)); }
      if d != cycle { OthersUntouched(rows, cycle, ms, (d, m)); }
      assert c != cycle && d == cycle ==> (c, m).1 == m && (c, m).0 != cycle;
      assert d != cycle && c == cycle ==> (d, m).1 == m && (d, m).0 != cycle;
    }
  }

  lemma SavedPositions(rows: Memberships, cycle: nat, ms: seq<Message>)
    requires PositionsDistinct(rows)
    ensures PositionsDistinct(Saved(rows, cycle, ms))
  {
    var after := Saved(rows, cycle, ms);
    forall c, m, n | (c, m) in after && (c, n) in after && after[(c, m)].position == after[(c, n)].position ensures m == n {
      if c == cycle {
        SavedMeaning(rows, cycle, ms, m);
        SavedMeaning(rows, cycle, ms, n);
      } else {
        OthersUntouched(rows, cycle, ms, (c, m));
        OthersUntouched(rows, cycle, ms, (c, n));
      }
    }
  }

  /** Accepted and conflicting ids split the list: each mention goes to one of the two, by whether another
      cycle has the message. */
  lemma {:induction false} IdsSplit(rows: Memberships, cycle: nat, ms: seq<Message>, id: string, elsewhere: bool)
    ensures |IdsWhere(rows, cycle, ms, false)| + |IdsWhere(rows, cycle, ms, true)| == |ms|
    ensures id in IdsWhere(rows, cycle, ms, elsewhere) <==> LastIndex(ms, id).Some? && Elsewhere(rows, cycle, id) == elsewhere
  {
    if ms != [] {
      IdsSplit(rows, cycle, ms[..|ms| - 1], id, elsewhere);
    }
  }

  /** Where in the list the mentions are that another cycle has, or has not. */
  function PositionsWhere(rows: Memberships, cycle: nat, ms: seq<Message>, elsewhere: bool): seq<nat> {
    if ms == [] then []
    else
      PositionsWhere(rows, cycle, ms[..|ms| - 1], elsewhere) +
      if Elsewhere(rows, cycle, ms[|ms| - 1].id) == elsewhere then [|ms| - 1] else []
  }

  /** The split is in order: each of the two lists is the list read at increasing positions, which are exactly
      the ones of its kind. */
  lemma {:induction false} IdsInOrder(rows: Memberships, cycle: nat, ms: seq<Message>, elsewhere: bool)
    ensures var ids, at := IdsWhere(rows, cycle, ms, elsewhere), PositionsWhere(rows, cycle, ms, elsewhere);
            && |ids| == |at| && (forall k :: 0 <= k < |at| ==> at[k] < |ms| && ids[k] == ms[at[k]].id)
            && (forall j, k :: 0 <= j < k < |at| ==> at[j] < at[k])
            && (forall i: nat :: i in at <==> i < |ms| && Elsewhere(rows, cycle, ms[i].id) == elsewhere)
  {
    if ms != [] {
      IdsInOrder(rows, cycle, ms[..|ms| - 1], elsewhere);
    }
  }

  /** Saving the same list again changes nothing. */
  lemma SavedTwice(rows: Memberships, cycle: nat, ms: seq<Message>)
    ensures Saved(Saved(rows, cycle, ms), cycle, ms) == Saved(rows, cycle, ms)
  {
    var once := Saved(rows, cycle, ms);
    var twice := Saved(once, cycle, ms);
    forall k ensures k in twice <==> k in once
      ensures k in once && k in twice ==> twice[k] == once[k]
    {
      if k.0 == cycle {
        ElsewhereKept(rows, cycle, ms, k.1);
        SavedMeaning(rows, cycle, ms, k.1);
        SavedMeaning(once, cycle, ms, k.1);
        assert k == (cycle, k.1);
      } else {
        OthersUntouched(once, cycle, ms, k);
      }
    }
  }

  datatype Save = Save(cycle: nat, messages: seq<Message>)

  function SavedAll(rows: Memberships, saves: seq<Save>): Memberships {
    if saves == [] then rows
    else
      var last := saves[|saves| - 1];
      Saved(SavedAll(rows, saves[..|saves| - 1]), last.cycle, last.messages)
  }

  /** Over any run of saves, to any cycles, every message is in at most one cycle and the positions in each
      cycle are distinct. */
  lemma {:induction false} RunExclusive(saves: seq<Save>)
    ensures Exclusive(SavedAll(map[], saves)) && PositionsDistinct(SavedAll(map[], saves))
  {
    if saves != [] {
      var last, before := saves[|saves| - 1], SavedAll(map[], saves[..|saves| - 1]);
      RunExclusive(saves[..|saves| - 1]);
      SavedExclusive(before, last.cycle, last.messages);
      SavedPositions(before, last.cycle, last.messages);
    }
  }
}
