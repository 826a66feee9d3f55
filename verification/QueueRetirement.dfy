/** Retirement of the legacy Redis lists: inventory and removal of validated values
    (`scripts/retire_legacy_ia_queue.py`), and the reviewed apply of one family
    (`scripts/retire_validated_legacy_redis_queues.py`). */
module QueueRetirement {
  import opened Common

  // ---- LREM --------------------------------------------------------------------------------------------

  /** LREM key 1 value: the first occurrence goes. */
  function RemoveFirst(list: seq<string>, v: string): seq<string> {
    if list == [] then [] else if list[0] == v then list[1..] else [list[0]] + RemoveFirst(list[1..], v)
  }

  /** One LREM for each value, in order. */
  function RemoveMany(list: seq<string>, values: seq<string>): seq<string> {
    if values == [] then list else RemoveFirst(RemoveMany(list, values[..|values| - 1]), values[|values| - 1])
  }

  /** How many of them found something. */
  function RemovedCount(list: seq<string>, values: seq<string>): nat {
    if values == [] then 0
    else
      var rest, last := values[..|values| - 1], values[|values| - 1];
      RemovedCount(list, rest) + if last in RemoveMany(list, rest) then 1 else 0
  }

  /** The values of a list for which `p` is, or is not, true, in order. */
  function Where(list: seq<string>, p: string -> bool, wanted: bool): (r: seq<string>)
    ensures forall v :: v in r ==> v in list && p(v) == wanted
  {
    if list == [] then []
    else (if p(list[0]) == wanted then [list[0]] else []) + Where(list[1..], p, wanted)
  }

  lemma {:induction false} RemoveFromOthers(x: string, xs: seq<string>, values: seq<string>)
    requires x !in values
    ensures RemoveMany([x] + xs, values) == [x] + RemoveMany(xs, values)
    ensures RemovedCount([x] + xs, values) == RemovedCount(xs, values)
    decreases |values|
  {
    if values != [] {
      RemoveFromOthers(x, xs, values[..|values| - 1]);
    }
  }

  lemma {:induction false} RemoveHead(x: string, xs: seq<string>, values: seq<string>)
    ensures RemoveMany([x] + xs, [x] + values) == RemoveMany(xs, values)
    ensures RemovedCount([x] + xs, [x] + values) == 1 + RemovedCount(xs, values)
    decreases |values|
  {
    var all := [x] + values;
    if values == [] {
      assert all[..0] == [];
    } else {
      assert all[..|all| - 1] == [x] + values[..|values| - 1];
      RemoveHead(x, xs, values[..|values| - 1]);
    }
  }

  /** Removing the chosen values one LREM at a time leaves exactly the list filtered of them, in order, and
      every LREM finds its value. */
  lemma {:induction false} RetiringIsFiltering(list: seq<string>, p: string -> bool)
    ensures RemoveMany(list, Where(list, p, true)) == Where(list, p, false)
    ensures RemovedCount(list, Where(list, p, true)) == |Where(list, p, true)|
  {
    if list != [] {
      var x, xs := list[0], list[1..];
      assert list == [x] + xs;
      RetiringIsFiltering(xs, p);
      if p(x) {
        RemoveHead(x, xs, Where(xs, p, true));
      } else {
        RemoveFromOthers(x, xs, Where(xs, p, true));
        assert Where(list, p, true) == Where(xs, p, true);
      }
    }
  }

  lemma {:induction false} RemoveFirstSize(list: seq<string>, v: string)
    ensures |RemoveFirst(list, v)| == |list| - if v in list then 1 else 0
  {
    if list != [] && list[0] != v { RemoveFirstSize(list[1..], v); }
  }

  /** What went and what is left are what was there. */
  lemma {:induction false} RemovalSizes(list: seq<string>, values: seq<string>)
    ensures |RemoveMany(list, values)| + RemovedCount(list, values) == |list|
    ensures RemovedCount(list, values) <= |values|
  {
    if values != [] {
      RemovalSizes(list, values[..|values| - 1]);
      RemoveFirstSize(RemoveMany(list, values[..|values| - 1]), values[|values| - 1]);
    }
  }

  /** When every value is found, so is every value of a prefix. */
  lemma {:induction false} PrefixFound(list: seq<string>, values: seq<string>, n: nat)
    requires RemovedCount(list, values) == |values| && n <= |values|
    ensures RemovedCount(list, values[..n]) == n
    decreases |values|
  {
    if n == |values| {
      assert values[..n] == values;
    } else {
      RemovalSizes(list, values[..|values| - 1]);
      assert values[..|values| - 1][..n] == values[..n];
      PrefixFound(list, values[..|values| - 1], n);
    }
  }

  // ---- Other clients at work -----------------------------------------------------------------------------

  /** What happens to a list while values are retired: our removals, and pushes by others at either end. */
  datatype Op = Lrem(value: string) | PushLeft(value: string) | PushRight(value: string)

  function Do(list: seq<string>, op: Op): seq<string> {
    match op
    case Lrem(v) => RemoveFirst(list, v)
    case PushLeft(v) => [v] + list
    case PushRight(v) => list + [v]
  }

  function DoAll(list: seq<string>, ops: seq<Op>): seq<string> {
    if ops == [] then list else Do(DoAll(list, ops[..|ops| - 1]), ops[|ops| - 1])
  }

  /** The pushes of values that are not to be removed. */
  function RetainedPushes(ops: seq<Op>, p: string -> bool): seq<Op> {
    if ops == [] then []
    else
      var rest, last := RetainedPushes(ops[..|ops| - 1], p), ops[|ops| - 1];
      if !last.Lrem? && !p(last.value) then rest + [last] else rest
  }

  lemma {:induction false} WhereConcat(a: seq<string>, b: seq<string>, p: string -> bool, wanted: bool)
    ensures Where(a + b, p, wanted) == Where(a, p, wanted) + Where(b, p, wanted)
  {
    if a == [] {
      assert a + b == b;
    } else {
      assert (a + b)[1..] == a[1..] + b;
      WhereConcat(a[1..], b, p, wanted);
    }
  }

  lemma {:induction false} RemovalRetains(list: seq<string>, v: string, p: string -> bool)
    requires p(v)
    ensures Where(RemoveFirst(list, v), p, false) == Where(list, p, false)
  {
    if list != [] && list[0] != v {
      RemovalRetains(list[1..], v, p);
      assert RemoveFirst(list, v)[1..] == RemoveFirst(list[1..], v);
    }
  }

  lemma StepRetains(list: seq<string>, op: Op, p: string -> bool)
    requires op.Lrem? ==> p(op.value)
    ensures Where(Do(list, op), p, false) ==
            if !op.Lrem? && !p(op.value) then Do(Where(list, p, false), op) else Where(list, p, false)
  {
    match op {
      case Lrem(v) => RemovalRetains(list, v, p);
      case PushLeft(v) => WhereConcat([v], list, p, false);
      case PushRight(v) => WhereConcat(list, [v], p, false);
    }
  }

  /** Whatever others push in between, the retained values are those of a run without any removal: all of
      them survive, in their order. */
  lemma {:induction false} RetainedSurvive(list: seq<string>, ops: seq<Op>, p: string -> bool)
    requires forall op :: op in ops && op.Lrem? ==> p(op.value)
    ensures Where(DoAll(list, ops), p, false) == DoAll(Where(list, p, false), RetainedPushes(ops, p))
  {
    hide Where, Do;
    if ops != [] {
      var rest, last := ops[..|ops| - 1], ops[|ops| - 1];
      assert ops == rest + [last];
      RetainedSurvive(list, rest, p);
      StepRetains(DoAll(list, rest), last, p);
      var pushes := RetainedPushes(rest, p);
      assert (pushes + [last])[..|pushes|] == pushes;
    }
  }

  function Count(ops: seq<Op>, op: Op): nat { multiset(ops)[op] }

  /** How often the value was really removed. */
  function Removals(list: seq<string>, ops: seq<Op>, v: string): nat {
    if ops == [] then 0
    else
      var rest, last := ops[..|ops| - 1], ops[|ops| - 1];
      Removals(list, rest, v) + if last == Lrem(v) && v in DoAll(list, rest) then 1 else 0
  }

  lemma {:induction false} RemoveFirstCounts(list: seq<string>, v: string)
    ensures multiset(RemoveFirst(list, v)) == if v in list then multiset(list) - multiset{v} else multiset(list)
  {
    if list != [] {
      assert list == [list[0]] + list[1..];
      if list[0] != v { RemoveFirstCounts(list[1..], v); }
    }
  }

  lemma StepCounts(list: seq<string>, op: Op, v: string)
    ensures multiset(Do(list, op))[v] + (if op == Lrem(v) && v in list then 1 else 0) ==
            multiset(list)[v] + (if op == PushLeft(v) || op == PushRight(v) then 1 else 0)
  {
    RemoveFirstCounts(list, op.value);
  }

  /** No value is removed more often than it was asked for, and every occurrence is accounted for: what is
      left and what was removed are what was there and what others pushed. */
  lemma {:induction false} OccurrencesConserved(list: seq<string>, ops: seq<Op>, v: string)
    ensures Removals(list, ops, v) <= Count(ops, Lrem(v))
    ensures multiset(DoAll(list, ops))[v] + Removals(list, ops, v) ==
            multiset(list)[v] + Count(ops, PushLeft(v)) + Count(ops, PushRight(v))
  {
    hide Do;
    if ops != [] {
      var rest, last := ops[..|ops| - 1], ops[|ops| - 1];
      assert ops == rest + [last];
      OccurrencesConserved(list, rest, v);
      StepCounts(DoAll(list, rest), last, v);
    }
  }

  /** The values that we ask to remove, in order. */
  function Asked(ops: seq<Op>): seq<string> {
    if ops == [] then []
    else
      var rest, last := Asked(ops[..|ops| - 1]), ops[|ops| - 1];
      if last.Lrem? then rest + [last.value] else rest
  }

  lemma {:induction false} AskedCount(ops: seq<Op>, v: string)
    ensures Count(ops, Lrem(v)) == multiset(Asked(ops))[v]
  {
    if ops != [] {
      assert ops == ops[..|ops| - 1] + [ops[|ops| - 1]];
      AskedCount(ops[..|ops| - 1], v);
    }
  }

  lemma {:induction false} WhereCount(list: seq<string>, p: string -> bool, v: string)
    ensures multiset(Where(list, p, true))[v] == if p(v) then multiset(list)[v] else 0
  {
    if list != [] {
      assert list == [list[0]] + list[1..];
      WhereCount(list[1..], p, v);
    }
  }

  /** When what we ask to remove are the validated values of an inspection, then under any pushes by others,
      since the inspection or in between, no value is removed more often than it was inspected, and no value
      that is not validated is removed at all. */
  lemma RemovedAtMostInspected(inspected: seq<string>, list: seq<string>, ops: seq<Op>, p: string -> bool, v: string)
    requires Asked(ops) == Where(inspected, p, true)
    ensures Removals(list, ops, v) <= multiset(inspected)[v]
    ensures !p(v) ==> Removals(list, ops, v) == 0
  {
    OccurrencesConserved(list, ops, v);
    AskedCount(ops, v);
    WhereCount(inspected, p, v);
  }

  // ---- The IA lists -----------------------------------------------------------------------------------------

  const TERMINAL := {"completed", "completed_with_warnings", "failed"}

  /** `parse` is `_cycle_id_from_value`; `status` looks a cycle up in PostgreSQL. */
  datatype Durable = Durable(parse: string -> Option<string>, status: string -> Option<string>)
  {
    predicate Malformed(value: string) { parse(value).None? }

    predicate Unknown(value: string) { parse(value).Some? && status(parse(value).value).None? }

    /** A value names a durable cycle, which on the dead-letter list must be terminal. */
    predicate Removable(dead: bool, value: string) {
      && parse(value).Some? && status(parse(value).value).Some?
      && (dead ==> status(parse(value).value).value in TERMINAL)
    }
  }

  /** `entries` counts the inspected values of each cycle that is named. */
  datatype Inventory = Inventory(physical: nat, inspected: nat, truncated: bool, malformed: nat, unknown: nat,
                                 entries: map<string, nat>, removable: seq<string>, digests: seq<string>)

  function Digests(digest: string -> string, values: seq<string>): seq<string> {
    seq(|values|, i requires 0 <= i < |values| => digest(values[i]))
  }

  class RedisLists {
    var queue: seq<string>
    var dead: seq<string>

    constructor (q: seq<string>, d: seq<string>)
      ensures queue == q && dead == d
    {
      queue, dead := q, d;
    }

    function Of(isDead: bool): seq<string> reads this { if isDead then dead else queue }

    /** LRANGE key 0 max - 1. */
    function Range(isDead: bool, max: nat): seq<string> reads this {
      if max < |Of(isDead)| then Of(isDead)[..max] else Of(isDead)
    }

    /** LREM key 1 value. */
    method Lrem(isDead: bool, value: string) returns (n: nat)
      modifies this
      ensures Of(isDead) == RemoveFirst(old(Of(isDead)), value) && Of(!isDead) == old(Of(!isDead))
      ensures n == if value in old(Of(isDead)) then 1 else 0
    {
      n := if value in Of(isDead) then 1 else 0;
      if isDead {
        dead := RemoveFirst(dead, value);
      } else {
        queue := RemoveFirst(queue, value);
      }
    }
  }

  lemma WhereAppend(list: seq<string>, v: string, p: string -> bool, wanted: bool)
    ensures Where(list + [v], p, wanted) == if p(v) == wanted then Where(list, p, wanted) + [v] else Where(list, p, wanted)
  {
    WhereConcat(list, [v], p, wanted);
  }

  /** `entries` says how often each cycle is named, and names no other. */
  ghost predicate CountsEntries(entries: map<string, nat>, values: seq<string>, parse: string -> Option<string>) {
    forall c :: (if c in entries then entries[c] else 0) == |Where(values, v => parse(v) == Some(c), true)|
                && (c in entries ==> entries[c] > 0)
  }

  lemma EntryCounted(entries: map<string, nat>, values: seq<string>, v: string, parse: string -> Option<string>)
    requires CountsEntries(entries, values, parse)
    ensures parse(v).None? ==> CountsEntries(entries, values + [v], parse)
    ensures parse(v).Some? ==>
              var id := parse(v).value;
              CountsEntries(entries[id := (if id in entries then entries[id] else 0) + 1], values + [v], parse)
  {
    forall c ensures |Where(values + [v], w => parse(w) == Some(c), true)| ==
                     |Where(values, w => parse(w) == Some(c), true)| + if parse(v) == Some(c) then 1 else 0
    {
      WhereAppend(values, v, w => parse(w) == Some(c), true);
    }
  }

  lemma NoEntries(parse: string -> Option<string>)
    ensures CountsEntries(map[], [], parse)
  {
  }

  /** What the inventory says of the values inspected so far. */
  ghost predicate Inventoried(durable: Durable, isDead: bool, values: seq<string>, removable: seq<string>,
                              malformed: nat, unknown: nat, entries: map<string, nat>) {
    && removable == Where(values, v => durable.Removable(isDead, v), true)
    && malformed == |Where(values, v => durable.Malformed(v), true)|
    && unknown == |Where(values, v => durable.Unknown(v), true)|
    && CountsEntries(entries, values, durable.parse)
  }

  lemma InventoryNone(durable: Durable, isDead: bool)
    ensures Inventoried(durable, isDead, [], [], 0, 0, map[])
  {
    NoEntries(durable.parse);
  }

  lemma InventoryOne(durable: Durable, isDead: bool, values: seq<string>, removable: seq<string>, malformed: nat,
                     unknown: nat, entries: map<string, nat>, v: string)
    requires Inventoried(durable, isDead, values, removable, malformed, unknown, entries)
    ensures durable.Malformed(v) ==>
              Inventoried(durable, isDead, values + [v], removable, malformed + 1, unknown, entries)
    ensures !durable.Malformed(v) ==>
              var id := durable.parse(v).value;
              Inventoried(durable, isDead, values + [v],
                          if durable.Removable(isDead, v) then removable + [v] else removable,
                          malformed, if durable.Unknown(v) then unknown + 1 else unknown,
                          entries[id := (if id in entries then entries[id] else 0) + 1])
  {
    hide Where, CountsEntries;
    WhereAppend(values, v, w => durable.Removable(isDead, w), true);
    WhereAppend(values, v, w => durable.Malformed(w), true);
    WhereAppend(values, v, w => durable.Unknown(w), true);
    EntryCounted(entries, values, v, durable.parse);
  }

  /** The inventory of one of the two lists. `physical` is its length as LLEN gave it, at some time before. */
  method InventoryList(redis: RedisLists, isDead: bool, physical: nat, durable: Durable, digest: string -> string,
                       maxItems: nat)
    returns (inventory: Inventory)
    requires maxItems > 0
    ensures var values := redis.Range(isDead, maxItems);
            && inventory.physical == physical && inventory.inspected == |values|
            && (inventory.truncated <==> physical > |values|)
            && Inventoried(durable, isDead, values, inventory.removable, inventory.malformed, inventory.unknown,
                           inventory.entries)
            && inventory.digests == Digests(digest, values)
  {
    hide Inventoried;
    var values := redis.Range(isDead, maxItems);
    var removable, malformed, unknown := [], 0, 0;
    var entries: map<string, nat> := map[];
    InventoryNone(durable, isDead);
    for i := 0 to |values|
      invariant Inventoried(durable, isDead, values[..i], removable, malformed, unknown, entries)
    {
      var v := values[i];
      assert values[..i + 1] == values[..i] + [v];
      InventoryOne(durable, isDead, values[..i], removable, malformed, unknown, entries, v);
      var id := durable.parse(v);
      if id.None? {
        malformed := malformed + 1;
      } else {
        entries := entries[id.value := (if id.value in entries then entries[id.value] else 0) + 1];
        if durable.status(id.value).None? {
          unknown := unknown + 1;
        } else if !isDead || durable.status(id.value).value in TERMINAL {
          removable := removable + [v];
        }
      }
    }
    assert values[..|values|] == values;
    inventory := Inventory(physical, |values|, physical > |values|, malformed, unknown, entries, removable,
                           Digests(digest, values));
  }

  /** `retire_validated_legacy_ia_entries`. */
  method Retire(redis: RedisLists, queue: Inventory, dead: Inventory) returns (result: Result<nat, string>)
    modifies redis
    ensures result.Err? <==> queue.truncated || dead.truncated
    ensures result.Err? ==> redis.queue == old(redis.queue) && redis.dead == old(redis.dead)
    ensures result.Ok? ==>
              && redis.queue == RemoveMany(old(redis.queue), queue.removable)
              && redis.dead == RemoveMany(old(redis.dead), dead.removable)
              && result.value == RemovedCount(old(redis.queue), queue.removable) + RemovedCount(old(redis.dead), dead.removable)
  {
    if queue.truncated || dead.truncated {
      return Err("cannot apply a truncated inventory");
    }
    var removed := RetireList(redis, false, queue.removable);
    var more := RetireList(redis, true, dead.removable);
    result := Ok(removed + more);
  }

  method RetireList(redis: RedisLists, isDead: bool, values: seq<string>) returns (removed: nat)
    modifies redis
    ensures redis.Of(isDead) == RemoveMany(old(redis.Of(isDead)), values) && redis.Of(!isDead) == old(redis.Of(!isDead))
    ensures removed == RemovedCount(old(redis.Of(isDead)), values)
  {
    removed := 0;
    for i := 0 to |values|
      invariant redis.Of(isDead) == RemoveMany(old(redis.Of(isDead)), values[..i]) && redis.Of(!isDead) == old(redis.Of(!isDead))
      invariant removed == RemovedCount(old(redis.Of(isDead)), values[..i])
    {
      assert values[..i + 1][..i] == values[..i];
      var n := redis.Lrem(isDead, values[i]);
      removed := removed + n;
    }
    assert values[..|values|] == values;
  }

  /** Inventory and retirement of a quiet pair of lists. When both inventories are complete, each list is left
      with exactly what is not validated, in order: malformed and unknown values, and dead letters of cycles
      that are not terminal. */
  method InventoryAndRetire(redis: RedisLists, durable: Durable, digest: string -> string, maxItems: int)
    returns (result: Result<nat, string>)
    modifies redis
    ensures result.Ok? <==> maxItems > 0 && |old(redis.queue)| <= maxItems && |old(redis.dead)| <= maxItems
    ensures result.Err? ==> redis.queue == old(redis.queue) && redis.dead == old(redis.dead)
    ensures result.Ok? ==>
              && redis.queue == Where(old(redis.queue), v => durable.Removable(false, v), false)
              && redis.dead == Where(old(redis.dead), v => durable.Removable(true, v), false)
              && |redis.queue| + |redis.dead| + result.value == |old(redis.queue)| + |old(redis.dead)|
  {
    if maxItems <= 0 {
      return Err("max_items must be positive");
    }
    var queue := InventoryList(redis, false, |redis.Of(false)|, durable, digest, maxItems);
    var dead := InventoryList(redis, true, |redis.Of(true)|, durable, digest, maxItems);
    result := Retire(redis, queue, dead);
    RetiringIsFiltering(old(redis.queue), v => durable.Removable(false, v));
    RetiringIsFiltering(old(redis.dead), v => durable.Removable(true, v));
    WhereSplits(old(redis.queue), v => durable.Removable(false, v));
    WhereSplits(old(redis.dead), v => durable.Removable(true, v));
  }

  /** What may be removed, from what a value names and what PostgreSQL says of it. */
  lemma RemovableMeaning(durable: Durable, v: string)
    ensures durable.Malformed(v) <==> durable.parse(v) == None
    ensures durable.Unknown(v) <==> durable.parse(v) != None && durable.status(durable.parse(v).value) == None
    ensures durable.Removable(false, v) <==> !(durable.Malformed(v) || durable.Unknown(v))
    ensures durable.Removable(true, v) <==>
            && durable.Removable(false, v)
            && var status := durable.status(durable.parse(v).value).value;
               status == "completed" || status == "completed_with_warnings" || status == "failed"
  {
  }

  /** Filtering keeps exactly the values that it is for, as often as they occur. */
  lemma {:induction false} WhereMeaning(list: seq<string>, p: string -> bool, wanted: bool, v: string)
    ensures multiset(Where(list, p, wanted))[v] == if p(v) == wanted then multiset(list)[v] else 0
  {
    if list != [] {
      assert list == [list[0]] + list[1..];
      WhereMeaning(list[1..], p, wanted, v);
    }
  }

  lemma {:induction false} WhereSplits(list: seq<string>, p: string -> bool)
    ensures |Where(list, p, true)| + |Where(list, p, false)| == |list|
  {
    if list != [] { WhereSplits(list[1..], p); }
  }
}
