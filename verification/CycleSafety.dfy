/** What every run of cycle transactions keeps: numbering, the single open cycle, the bijection between
    closed cycles and delivered close keys, fixed contacts, and replays. */
module CycleSafety {
  import opened Common
  import opened Numbering
  import opened Selection
  import opened Cycles

  // ---- Runs ------------------------------------------------------------------------------------------

  datatype Event =
    | Tick(elapsed: nat)
    | OpenEvent(conversation: string, started: int, key: string, strategy: string, contact: Option<string>)
    | CloseEvent(conversation: string, protocol: string, closed: int, key: string, strategy: string,
                 contact: Option<string>, delay: int)
    | TransitionEvent(id: nat, status: Status, expected: seq<Status>, p: Patch)
    | ClaimEvent(id: nat, owner: string, seconds: int)
    | ClaimNextEvent(owner: string, seconds: int)
    | WakeEvent(exhausted: set<nat>, limit: int)

  datatype Sys = Sys(rows: Rows, now: int)

  /** The rows after one transaction. An unsafe contact id is refused before any change. */
  function RowsAfter(rows: Rows, now: int, e: Event): Rows {
    match e
    case Tick(_) => rows
    case OpenEvent(conversation, started, key, strategy, contact) =>
      if NormalizeContact(contact).Err? then rows
      else Opened(rows, conversation, started, key, strategy, NormalizeContact(contact).value, now)
    case CloseEvent(conversation, protocol, closed, key, strategy, contact, delay) =>
      if NormalizeContact(contact).Err? then rows
      else Closed(rows, conversation, protocol, closed, key, strategy, NormalizeContact(contact).value, now, delay)
    case TransitionEvent(id, status, expected, p) => Transitioned(rows, id, status, expected, p, now)
    case ClaimEvent(id, owner, seconds) => Claimed(rows, id, owner, seconds, now)
    case ClaimNextEvent(owner, seconds) => ClaimedNext(rows, owner, seconds, now)
    case WakeEvent(exhausted, limit) => Woken(rows, exhausted, limit, now)
  }

  function Apply(s: Sys, e: Event): Sys {
    Sys(RowsAfter(s.rows, s.now, e), if e.Tick? then s.now + e.elapsed else s.now)
  }

  function Run(s: Sys, es: seq<Event>): Sys {
    if es == [] then s else Apply(Run(s, es[..|es| - 1]), es[|es| - 1])
  }

  const START := Sys([], 0)

  // ---- The invariant --------------------------------------------------------------------------------------

  function Conversations(rows: Rows): seq<string> { seq(|rows|, i requires 0 <= i < |rows| => rows[i].conversation) }

  function Numbers(rows: Rows): seq<nat> { seq(|rows|, i requires 0 <= i < |rows| => rows[i].number) }

  ghost predicate ClosedKeyed(rows: Rows) {
    forall i :: 0 <= i < |rows| ==> (rows[i].closed.Some? <==> rows[i].closeKey.Some?)
  }

  ghost predicate OnlyLastOpen(rows: Rows) {
    forall i, j :: 0 <= i < j < |rows| && rows[i].conversation == rows[j].conversation ==> rows[i].closed.Some?
  }

  ghost predicate KeysUnique(rows: Rows) {
    && (forall i, j :: 0 <= i < j < |rows| && rows[i].openKey.Some? ==> rows[i].openKey != rows[j].openKey)
    && (forall i, j :: 0 <= i < j < |rows| && rows[i].closeKey.Some? ==> rows[i].closeKey != rows[j].closeKey)
  }

  ghost predicate Inv(rows: Rows) {
    Numbered(Conversations(rows), Numbers(rows)) && ClosedKeyed(rows) && OnlyLastOpen(rows) && KeysUnique(rows)
  }

  /** No row is lost; its conversation, its number and its open key are fixed, and so are its contact, its
      close time and its close key once they are known. */
  ghost predicate RowKept(a: Cycle, b: Cycle) {
    && b.conversation == a.conversation && b.number == a.number && b.openKey == a.openKey
    && (a.contact.Some? ==> b.contact == a.contact)
    && (a.closed.Some? ==> b.closed == a.closed)
    && (a.closeKey.Some? ==> b.closeKey == a.closeKey)
  }

  ghost predicate Kept(a: Rows, b: Rows) {
    |a| <= |b| && forall i :: 0 <= i < |a| ==> RowKept(a[i], b[i])
  }

  /** The same rows, with the same keys and close times. */
  ghost predicate SameIdentity(a: Rows, b: Rows) {
    && |a| == |b|
    && forall i :: 0 <= i < |a| ==> RowKept(a[i], b[i]) && b[i].closed == a[i].closed && b[i].closeKey == a[i].closeKey
  }

  lemma IdentityKept(a: Rows, b: Rows)
    requires Inv(a) && SameIdentity(a, b)
    ensures Inv(b) && Kept(a, b)
  {
    assert Conversations(a) == Conversations(b) && Numbers(a) == Numbers(b);
  }

  lemma AppendCycle(rows: Rows, c: Cycle)
    requires Numbered(Conversations(rows), Numbers(rows)) && c.number == LastNumber(rows, c.conversation) + 1
    ensures Numbered(Conversations(rows + [c]), Numbers(rows + [c]))
  {
    var n := LastNumber(rows, c.conversation);
    if n > 0 {
      var i :| 0 <= i < |rows| && rows[i].conversation == c.conversation && rows[i].number == n;
      assert Conversations(rows)[i] == c.conversation && Numbers(rows)[i] == n;
    }
    GreatestIsCount(Conversations(rows), Numbers(rows), c.conversation, n);
    AppendNumbered(Conversations(rows), Numbers(rows), c.conversation, c.number);
    assert Conversations(rows + [c]) == Conversations(rows) + [c.conversation];
    assert Numbers(rows + [c]) == Numbers(rows) + [c.number];
  }

  lemma AppendUnique(rows: Rows, c: Cycle)
    requires KeysUnique(rows)
    requires c.openKey.Some? ==> ByOpenKey(rows, c.openKey.value).None?
    requires c.closeKey.Some? ==> ByCloseKey(rows, c.closeKey.value).None?
    ensures KeysUnique(rows + [c])
  {
  }

  lemma AppendOnlyOpen(rows: Rows, c: Cycle)
    requires OnlyLastOpen(rows) && OpenOf(rows, c.conversation).None?
    ensures OnlyLastOpen(rows + [c])
  {
  }

  /** A new row takes the next number; its conversation has no open cycle, and its keys are new. */
  lemma AppendKept(rows: Rows, c: Cycle)
    requires Inv(rows) && c.number == LastNumber(rows, c.conversation) + 1 && OpenOf(rows, c.conversation).None?
    requires c.closed.Some? <==> c.closeKey.Some?
    requires c.openKey.Some? ==> ByOpenKey(rows, c.openKey.value).None?
    requires c.closeKey.Some? ==> ByCloseKey(rows, c.closeKey.value).None?
    ensures Inv(rows + [c]) && Kept(rows, rows + [c])
  {
    AppendCycle(rows, c);
    AppendUnique(rows, c);
    AppendOnlyOpen(rows, c);
  }

  /** Closing the open cycle under a new key. */
  lemma CloseKept(rows: Rows, i: nat, c: Cycle)
    requires Inv(rows) && i < |rows| && rows[i].closed.None? && RowKept(rows[i], c)
    requires c.closed.Some? && c.closeKey.Some? && ByCloseKey(rows, c.closeKey.value).None?
    ensures Inv(rows[i := c]) && Kept(rows, rows[i := c])
  {
    assert Conversations(rows[i := c]) == Conversations(rows) && Numbers(rows[i := c]) == Numbers(rows);
  }

  lemma OpenedKept(rows: Rows, conversation: string, started: int, key: string, strategy: string,
                   contact: Option<string>, now: int)
    requires Inv(rows)
    ensures var next := Opened(rows, conversation, started, key, strategy, contact, now); Inv(next) && Kept(rows, next)
  {
    var next := Opened(rows, conversation, started, key, strategy, contact, now);
    if |next| == |rows| {
      IdentityKept(rows, next);
    } else {
      AppendKept(rows, next[|rows|]);
    }
  }

  lemma ClosedKept(rows: Rows, conversation: string, protocol: string, closed: int, key: string, strategy: string,
                   contact: Option<string>, now: int, delay: int)
    requires Inv(rows)
    ensures var next := Closed(rows, conversation, protocol, closed, key, strategy, contact, now, delay);
            Inv(next) && Kept(rows, next) && ByCloseKey(next, key).Some?
  {
    var next := Closed(rows, conversation, protocol, closed, key, strategy, contact, now, delay);
    var duplicate, current := ByCloseKey(rows, key), OpenOf(rows, conversation);
    if duplicate.Some? {
      IdentityKept(rows, next);
    } else if current.Some? {
      CloseKept(rows, current.value, next[current.value]);
      assert next[current.value].closeKey == Some(key);
    } else {
      AppendKept(rows, next[|rows|]);
      assert next[|rows|].closeKey == Some(key);
    }
  }

  lemma OtherKept(rows: Rows, now: int, e: Event)
    requires Inv(rows) && !e.OpenEvent? && !e.CloseEvent?
    ensures SameIdentity(rows, RowsAfter(rows, now, e))
  {
  }

  lemma StepKept(s: Sys, e: Event)
    requires Inv(s.rows)
    ensures Inv(Apply(s, e).rows) && Kept(s.rows, Apply(s, e).rows)
  {
    if e.OpenEvent? {
      if NormalizeContact(e.contact).Ok? {
        OpenedKept(s.rows, e.conversation, e.started, e.key, e.strategy, NormalizeContact(e.contact).value, s.now);
      }
    } else if e.CloseEvent? {
      if NormalizeContact(e.contact).Ok? {
        ClosedKept(s.rows, e.conversation, e.protocol, e.closed, e.key, e.strategy,
                   NormalizeContact(e.contact).value, s.now, e.delay);
      }
    } else {
      OtherKept(s.rows, s.now, e);
      IdentityKept(s.rows, Apply(s, e).rows);
    }
  }

  /** Every run keeps the invariant, and every row keeps its identity through it. */
  lemma {:induction false} RunKept(s: Sys, es: seq<Event>)
    requires Inv(s.rows)
    ensures Inv(Run(s, es).rows) && Kept(s.rows, Run(s, es).rows)
  {
    if es != [] {
      RunKept(s, es[..|es| - 1]);
      StepKept(Run(s, es[..|es| - 1]), es[|es| - 1]);
    }
  }

  // ---- Numbers ----------------------------------------------------------------------------------------------

  /** In every reachable state the numbers of every conversation are exactly 1 to n, in the order of the rows,
      and only the cycle with number n may be open. */
  lemma ReachableNumbers(es: seq<Event>, conversation: string)
    ensures var rows := Run(START, es).rows;
            && Exact(Conversations(rows), Numbers(rows), conversation)
            && forall i :: 0 <= i < |rows| && rows[i].conversation == conversation && rows[i].closed.None? ==>
                 rows[i].number == multiset(Conversations(rows))[conversation]
  {
    RunKept(START, es);
    var rows := Run(START, es).rows;
    NumberedExact(Conversations(rows), Numbers(rows), conversation);
    forall i | 0 <= i < |rows| && rows[i].conversation == conversation && rows[i].closed.None?
      ensures rows[i].number == multiset(Conversations(rows))[conversation]
    {
      LastHasCount(Conversations(rows), Numbers(rows), i);
    }
  }

  // ---- Close keys ----------------------------------------------------------------------------------------------

  /** The close keys delivered with an acceptable contact. */
  function CloseKeys(es: seq<Event>): set<string> {
    if es == [] then {}
    else
      var e := es[|es| - 1];
      CloseKeys(es[..|es| - 1]) + if e.CloseEvent? && NormalizeContact(e.contact).Ok? then {e.key} else {}
  }

  ghost predicate HasCloseKey(rows: Rows, key: string) { exists i :: 0 <= i < |rows| && rows[i].closeKey == Some(key) }

  ghost predicate HasOpenKey(rows: Rows, key: string) { exists i :: 0 <= i < |rows| && rows[i].openKey == Some(key) }

  lemma KeptHasKeys(a: Rows, b: Rows, key: string)
    requires Kept(a, b)
    ensures HasCloseKey(a, key) ==> HasCloseKey(b, key)
    ensures HasOpenKey(a, key) ==> HasOpenKey(b, key)
  {
    if HasCloseKey(a, key) {
      var i :| 0 <= i < |a| && a[i].closeKey == Some(key);
      assert b[i].closeKey == Some(key);
    }
    if HasOpenKey(a, key) {
      var i :| 0 <= i < |a| && a[i].openKey == Some(key);
      assert b[i].openKey == Some(key);
    }
  }

  lemma OpenedHasNoNewCloseKey(rows: Rows, conversation: string, started: int, key: string, strategy: string,
                               contact: Option<string>, now: int, other: string)
    requires HasCloseKey(Opened(rows, conversation, started, key, strategy, contact, now), other)
    ensures HasCloseKey(rows, other)
  {
    var next := Opened(rows, conversation, started, key, strategy, contact, now);
    var i :| 0 <= i < |next| && next[i].closeKey == Some(other);
    assert i < |rows| && rows[i].closeKey == Some(other);
  }

  lemma ClosedHasOneNewCloseKey(rows: Rows, conversation: string, protocol: string, closed: int, key: string, strategy: string,
                                contact: Option<string>, now: int, delay: int, other: string)
    requires HasCloseKey(Closed(rows, conversation, protocol, closed, key, strategy, contact, now, delay), other)
    ensures HasCloseKey(rows, other) || other == key
  {
    var next := Closed(rows, conversation, protocol, closed, key, strategy, contact, now, delay);
    var i :| 0 <= i < |next| && next[i].closeKey == Some(other);
    assert other != key ==> i < |rows| && rows[i].closeKey == Some(other);
  }

  lemma CloseKeyStep(s: Sys, e: Event, key: string)
    requires Inv(s.rows)
    ensures HasCloseKey(Apply(s, e).rows, key) <==>
            HasCloseKey(s.rows, key) || (e.CloseEvent? && NormalizeContact(e.contact).Ok? && e.key == key)
  {
    StepKept(s, e);
    KeptHasKeys(s.rows, Apply(s, e).rows, key);
    if e.CloseEvent? {
      if NormalizeContact(e.contact).Ok? {
        ClosedKept(s.rows, e.conversation, e.protocol, e.closed, e.key, e.strategy,
                   NormalizeContact(e.contact).value, s.now, e.delay);
        if HasCloseKey(Apply(s, e).rows, key) {
          ClosedHasOneNewCloseKey(s.rows, e.conversation, e.protocol, e.closed, e.key, e.strategy,
                                  NormalizeContact(e.contact).value, s.now, e.delay, key);
        }
      }
    } else if e.OpenEvent? {
      if NormalizeContact(e.contact).Ok? && HasCloseKey(Apply(s, e).rows, key) {
        OpenedHasNoNewCloseKey(s.rows, e.conversation, e.started, e.key, e.strategy,
                               NormalizeContact(e.contact).value, s.now, key);
      }
    } else {
      OtherKept(s.rows, s.now, e);
    }
  }

  /** The closed cycles are in bijection with the distinct close keys delivered: each delivered key is on
      exactly one row, and a row is closed exactly when it has one. */
  lemma {:induction false} ClosedCyclesAreCloseKeys(es: seq<Event>)
    ensures var rows := Run(START, es).rows;
            && (forall i :: 0 <= i < |rows| ==> (rows[i].closed.Some? <==> rows[i].closeKey.Some?))
            && (forall i :: 0 <= i < |rows| && rows[i].closeKey.Some? ==> rows[i].closeKey.value in CloseKeys(es))
            && (forall i, j :: 0 <= i < j < |rows| && rows[i].closeKey.Some? ==> rows[i].closeKey != rows[j].closeKey)
            && (forall key :: key in CloseKeys(es) ==> HasCloseKey(rows, key))
  {
    RunKept(START, es);
    forall key ensures HasCloseKey(Run(START, es).rows, key) <==> key in CloseKeys(es) {
      RunCloseKeys(es, key);
    }
  }

  lemma {:induction false} RunCloseKeys(es: seq<Event>, key: string)
    ensures HasCloseKey(Run(START, es).rows, key) <==> key in CloseKeys(es)
  {
    if es != [] {
      RunKept(START, es[..|es| - 1]);
      RunCloseKeys(es[..|es| - 1], key);
      CloseKeyStep(Run(START, es[..|es| - 1]), es[|es| - 1], key);
    }
  }

  // ---- Replays ----------------------------------------------------------------------------------------------------

  /** A recorded key is a replay: whatever else the delivery says, it changes nothing. */
  lemma RecordedOpenReplays(s: Sys, e: Event)
    requires e.OpenEvent? && HasOpenKey(s.rows, e.key)
    ensures Apply(s, e) == s
  {
  }

  lemma RecordedCloseReplays(s: Sys, e: Event)
    requires e.CloseEvent? && HasCloseKey(s.rows, e.key)
    ensures Apply(s, e) == s
  {
  }

  /** A close key that was delivered once never does anything again, however much happens in between. */
  lemma CloseReplays(es: seq<Event>, e: Event)
    requires e.CloseEvent? && e.key in CloseKeys(es)
    ensures Apply(Run(START, es), e) == Run(START, es)
  {
    RunCloseKeys(es, e.key);
    RecordedCloseReplays(Run(START, es), e);
  }

  ghost predicate Creates(s: Sys, e: Event) { |Apply(s, e).rows| > |s.rows| }

  /** A close key that no row has. */
  function UnusedKey(rows: Rows): (key: string)
    ensures !HasCloseKey(rows, key)
    ensures forall i :: 0 <= i < |rows| && rows[i].closeKey.Some? ==> |rows[i].closeKey.value| < |key|
  {
    if rows == [] then "k"
    else
      var key, last := UnusedKey(rows[..|rows| - 1]), rows[|rows| - 1].closeKey;
      if last.Some? && |last.value| >= |key| then last.value + "k" else key
  }

  lemma RunOne(s: Sys, e: Event)
    ensures Run(s, [e]) == Apply(s, e)
  {
    assert [e][..0] == [];
  }

  /** Once recorded, an open key never creates a cycle again. */
  lemma RecordedNeverCreates(s: Sys, es: seq<Event>, e: Event)
    requires Inv(s.rows) && e.OpenEvent? && HasOpenKey(s.rows, e.key)
    ensures !Creates(Run(s, es), e)
  {
    RunKept(s, es);
    var i :| 0 <= i < |s.rows| && s.rows[i].openKey == Some(e.key);
    assert Run(s, es).rows[i].openKey == Some(e.key);
    RecordedOpenReplays(Run(s, es), e);
  }

  /** A delivery that an open cycle absorbs does not record its key: once that cycle is closed, the same
      delivery creates another one. */
  lemma AbsorbedKeyCreatesLater(s: Sys, e: Event)
    requires Inv(s.rows) && e.OpenEvent? && NormalizeContact(e.contact).Ok?
    requires !HasOpenKey(s.rows, e.key) && OpenOf(s.rows, e.conversation).Some?
    ensures var close := CloseEvent(e.conversation, "", 0, UnusedKey(Apply(s, e).rows), "x", None, 0);
            Creates(Run(Apply(s, e), [close]), e)
  {
    var t := Apply(s, e);
    StepKept(s, e);
    var close := CloseEvent(e.conversation, "", 0, UnusedKey(t.rows), "x", None, 0);
    RunOne(t, close);
    var current := OpenOf(s.rows, e.conversation).value;
    assert t.rows[current].conversation == e.conversation && t.rows[current].closed.None?;
    assert ByCloseKey(t.rows, close.key).None?;
    var i := OpenOf(t.rows, e.conversation).value;
    var u := Apply(t, close);
    StepKept(t, close);
    assert u.rows == t.rows[i := u.rows[i]] && u.rows[i].closed.Some?;
    forall j | 0 <= j < |u.rows| && u.rows[j].conversation == e.conversation ensures u.rows[j].closed.Some? {
      assert j != i ==> t.rows[j].closed.Some?;
    }
    assert !HasOpenKey(u.rows, e.key);
  }

  ghost predicate CreatesAfter(s: Sys, es: seq<Event>, e: Event) { Creates(Run(s, es), e) }

  /** When redelivering an open event is safe for good: exactly when its key was recorded before, or the
      conversation has no open cycle, so that this delivery records it. */
  lemma OpenRedeliverySafe(s: Sys, e: Event)
    requires Inv(s.rows) && e.OpenEvent? && NormalizeContact(e.contact).Ok?
    ensures (forall es :: !CreatesAfter(Apply(s, e), es, e)) <==>
            HasOpenKey(s.rows, e.key) || OpenOf(s.rows, e.conversation).None?
  {
    var t := Apply(s, e);
    if HasOpenKey(s.rows, e.key) || OpenOf(s.rows, e.conversation).None? {
      StepKept(s, e);
      DeliveryRecords(s, e);
      forall es ensures !CreatesAfter(t, es, e) { RecordedNeverCreates(t, es, e); }
    } else {
      AbsorbedKeyCreatesLater(s, e);
      var close := CloseEvent(e.conversation, "", 0, UnusedKey(t.rows), "x", None, 0);
      assert CreatesAfter(t, [close], e);
    }
  }

  lemma DeliveryRecords(s: Sys, e: Event)
    requires e.OpenEvent? && NormalizeContact(e.contact).Ok?
    requires HasOpenKey(s.rows, e.key) || OpenOf(s.rows, e.conversation).None?
    ensures HasOpenKey(Apply(s, e).rows, e.key)
  {
    if HasOpenKey(s.rows, e.key) {
      RecordedOpenReplays(s, e);
    } else {
      assert ByOpenKey(s.rows, e.key).None?;
      assert Apply(s, e).rows[|s.rows|].openKey == Some(e.key);
    }
  }
}
