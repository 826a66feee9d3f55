/** The versioned DigiSac-to-Acessorias department rules and their audit log:
    `_configure_department_mapping_sync` of `src/core/department_mapping.py`. Row ids are indices: no row of
    the two tables is ever deleted. */
module DepartmentMapping {
  import opened Common

  datatype State = Active | Inactive

  datatype Rule = Rule(digisac: string, target: string, version: nat, state: State, reason: string,
                       actor: Option<string>, metadata: string, effective: int)

  datatype Transition = Transition(rule: nat, before: Option<State>, to: State, reason: string, key: string,
                                   actor: Option<string>)

  datatype Db = Db(rules: seq<Rule>, transitions: seq<Transition>)

  datatype Error = InvalidArgument | NotFound | Conflict | ConstraintViolation

  // ---- Arguments ------------------------------------------------------------------------------------

  predicate Unsafe(c: char) { c == '\r' || c == '\n' || c == '\0' }

  /** `_external_id`. */
  function ExternalId(value: string): (r: Result<string, Error>)
    ensures r.Ok? ==> r.value == Strip(value) && 1 <= |r.value| <= 240 && forall c :: c in r.value ==> !Unsafe(c)
    ensures r.Err? <==> Strip(value) == "" || |Strip(value)| > 240 || exists c :: c in Strip(value) && Unsafe(c)
  {
    var s := Strip(value);
    if s == "" || |s| > 240 || (exists c :: c in s && Unsafe(c)) then Err(InvalidArgument) else Ok(s)
  }

  predicate ReasonChar(c: char) { IsLowerAlnum(c) || c == '_' || c == ':' || c == '-' }

  predicate KeyChar(c: char) { ReasonChar(c) || c == '.' || c == '@' }

  /** Stripped, lowered and matched against a class of characters. */
  function Safe(value: string, accepted: char -> bool, limit: nat): (r: Result<string, Error>)
    ensures r.Ok? ==> r.value == Lower(Strip(value)) && Matches(r.value, accepted, limit)
  {
    var s := Lower(Strip(value));
    if Matches(s, accepted, limit) then Ok(s) else Err(InvalidArgument)
  }

  function SafeOptional(value: Option<string>, limit: nat): (r: Result<Option<string>, Error>)
    ensures r.Ok? ==> r.value == if value.None? then None else Some(Lower(Strip(value.value)))
    ensures r.Ok? && r.value.Some? ==> Matches(r.value.value, KeyChar, limit)
  {
    if value.None? then Ok(None)
    else
      var s := Safe(value.value, KeyChar, limit);
      if s.Ok? then Ok(Some(s.value)) else Err(s.error)
  }

  /** A call. `metadata` is the sanitised metadata or its refusal; `effective` is the given time or the clock. */
  datatype Request = Request(digisac: string, target: Option<string>, active: bool, reason: string, actor: Option<string>,
                             operation: Option<string>, metadata: Result<string, ()>, effective: int)

  /** A call with safe arguments and its operation key. */
  datatype Order = Order(digisac: string, target: Option<string>, wanted: State, reason: string, actor: Option<string>,
                         key: string, metadata: string, effective: int)

  function StateName(s: State): string { if s == Active then "active" else "inactive" }

  /** The text that is hashed when the caller gives no key. */
  function KeyText(wanted: State, digisac: string, target: Option<string>, reason: string): string {
    "manual_db|" + StateName(wanted) + "|" + digisac + "|" + (if target.Some? then target.value else "current") + "|" + reason
  }

  /** The five parts of the text, between bars. */
  lemma KeyTextMeaning(digisac: string, target: string, reason: string)
    ensures KeyText(Active, digisac, Some(target), reason) == "manual_db|active|" + digisac + "|" + target + "|" + reason
    ensures KeyText(Inactive, digisac, Some(target), reason) == "manual_db|inactive|" + digisac + "|" + target + "|" + reason
  {
  }

  lemma KeyTextOfCurrent(wanted: State, digisac: string, reason: string)
    ensures KeyText(wanted, digisac, None, reason) == KeyText(wanted, digisac, Some("current"), reason)
  {
  }

  /** The derived key. `hash` is SHA-256 in hexadecimal. */
  function DerivedKey(hash: string -> string, wanted: State, digisac: string, target: Option<string>, reason: string): string {
    "manual_db:" + hash(KeyText(wanted, digisac, target, reason))
  }

  const MAX_KEY := 240

  /** The key of a call: its own, or the derived one. */
  function KeyOf(hash: string -> string, operation: Option<string>, wanted: State, digisac: string, target: Option<string>,
                 reason: string): string
  {
    if operation.Some? then operation.value else DerivedKey(hash, wanted, digisac, target, reason)
  }

  function OptionalId(value: Option<string>): Result<Option<string>, Error> {
    if value.None? then Ok(None)
    else
      var id := ExternalId(value.value);
      if id.Ok? then Ok(Some(id.value)) else Err(id.error)
  }

  /** The validation of the arguments, before the transaction. */
  function Parse(hash: string -> string, q: Request): Result<Order, Error> {
    var digisac, target, reason := ExternalId(q.digisac), OptionalId(q.target), Safe(q.reason, ReasonChar, 120);
    var actor, operation := SafeOptional(q.actor, 120), SafeOptional(q.operation, MAX_KEY);
    if digisac.Err? || target.Err? || reason.Err? || actor.Err? || q.metadata.Err? || operation.Err? then Err(InvalidArgument)
    else
      var wanted := if q.active then Active else Inactive;
      Ok(Order(digisac.value, target.value, wanted, reason.value, actor.value,
               KeyOf(hash, operation.value, wanted, digisac.value, target.value, reason.value),
               q.metadata.value, q.effective))
  }

  // ---- Queries ----------------------------------------------------------------------------------------

  function ByKey(ts: seq<Transition>, key: string): (found: Option<nat>)
    ensures found.Some? ==> found.value < |ts| && ts[found.value].key == key
    ensures found.None? ==> forall i :: 0 <= i < |ts| ==> ts[i].key != key
  {
    if ts == [] then None
    else if ts[|ts| - 1].key == key then Some(|ts| - 1)
    else ByKey(ts[..|ts| - 1], key)
  }

  function ActiveOf(rules: seq<Rule>, digisac: string): (found: Option<nat>)
    ensures found.Some? ==>
              found.value < |rules| && rules[found.value].digisac == digisac && rules[found.value].state == Active
    ensures found.None? ==> forall i :: 0 <= i < |rules| ==> !(rules[i].digisac == digisac && rules[i].state == Active)
  {
    if rules == [] then None
    else
      var found, last := ActiveOf(rules[..|rules| - 1], digisac), rules[|rules| - 1];
      if found.None? && last.digisac == digisac && last.state == Active then Some(|rules| - 1) else found
  }

  /** The rule of the greatest version. */
  function LatestOf(rules: seq<Rule>, digisac: string): (found: Option<nat>)
    ensures found.Some? ==>
              && found.value < |rules| && rules[found.value].digisac == digisac
              && forall i :: 0 <= i < |rules| && rules[i].digisac == digisac ==> rules[i].version <= rules[found.value].version
    ensures found.None? ==> forall i :: 0 <= i < |rules| ==> rules[i].digisac != digisac
  {
    if rules == [] then None
    else
      var found, last := LatestOf(rules[..|rules| - 1], digisac), rules[|rules| - 1];
      if last.digisac == digisac && (found.None? || rules[found.value].version <= last.version) then Some(|rules| - 1)
      else found
  }

  /** COALESCE(MAX(version), 0). */
  function LastVersion(rules: seq<Rule>, digisac: string): nat {
    var found := LatestOf(rules, digisac);
    if found.Some? then rules[found.value].version else 0
  }

  // ---- The transaction -----------------------------------------------------------------------------------

  /** The audit log refers to rules that exist. */
  ghost predicate Refers(db: Db) { forall i :: 0 <= i < |db.transitions| ==> db.transitions[i].rule < |db.rules| }

  /** `_transition`: a key that is taken by the same change is accepted, by another one refused. The column
      holds at most 240 characters. */
  function AddTransition(ts: seq<Transition>, t: Transition): Result<seq<Transition>, Error> {
    var existing := ByKey(ts, t.key);
    if existing.Some? then
      var e := ts[existing.value];
      if e.rule == t.rule && e.to == t.to && e.reason == t.reason && e.actor == t.actor then Ok(ts) else Err(Conflict)
    else if |t.key| > MAX_KEY then Err(ConstraintViolation)
    else Ok(ts + [t])
  }

  /** A transition is appended under a key that is free and short enough. Under a taken key it is accepted, without a
      change, exactly when the transition there says the same of the same rule. */
  lemma AddTransitionMeaning(ts: seq<Transition>, t: Transition)
    ensures var added := AddTransition(ts, t);
            && ((forall i :: 0 <= i < |ts| ==> ts[i].key != t.key) ==>
                  added == if |t.key| <= 240 then Ok(ts + [t]) else Err(ConstraintViolation))
            && (forall i :: 0 <= i < |ts| && ts[i].key == t.key && (forall j :: 0 <= j < |ts| && ts[j].key == t.key ==> j == i) ==>
                  added == if ts[i].rule == t.rule && ts[i].to == t.to && ts[i].reason == t.reason && ts[i].actor == t.actor
                           then Ok(ts) else Err(Conflict))
  {
  }

  /** The tables that the transaction leaves, and the rule that it returns. */
  datatype Outcome = Outcome(db: Db, rule: nat)

  function Logged(rules: seq<Rule>, ts: seq<Transition>, t: Transition): Result<Outcome, Error> {
    var added := AddTransition(ts, t);
    if added.Ok? then Ok(Outcome(Db(rules, added.value), t.rule)) else Err(added.error)
  }

  /** A rule of the next version, and its first transition. */
  function Created(rules: seq<Rule>, ts: seq<Transition>, o: Order, target: string): Result<Outcome, Error> {
    var rule := Rule(o.digisac, target, LastVersion(rules, o.digisac) + 1, o.wanted, o.reason, o.actor, o.metadata, o.effective);
    Logged(rules + [rule], ts, Transition(|rules|, None, o.wanted, o.reason, o.key, o.actor))
  }

  function Replacement(o: Order, current: nat): Transition {
    Transition(current, Some(Active), Inactive, "mapping_replaced", o.key + ":deactivate", o.actor)
  }

  function Activated(db: Db, o: Order, current: Option<nat>, target: string): Result<Outcome, Error>
    requires current.Some? ==> current.value < |db.rules|
  {
    if current.None? then Created(db.rules, db.transitions, o, target)
    else
      var c := current.value;
      if db.rules[c].target == target then
        Logged(db.rules, db.transitions, Transition(c, Some(Active), Active, o.reason, o.key, o.actor))
      else
        var rules := db.rules[c := db.rules[c].(state := Inactive)];
        var added := AddTransition(db.transitions, Replacement(o, c));
        if added.Err? then Err(added.error) else Created(rules, added.value, o, target)
  }

  function Inactivated(db: Db, o: Order, current: Option<nat>, target: string): Result<Outcome, Error>
    requires current.Some? ==> current.value < |db.rules|
  {
    if current.Some? then
      var c := current.value;
      Logged(db.rules[c := db.rules[c].(state := Inactive, reason := o.reason, actor := o.actor, metadata := o.metadata)],
             db.transitions, Transition(c, Some(Active), Inactive, o.reason, o.key, o.actor))
    else
      var latest := LatestOf(db.rules, o.digisac);
      if latest.Some? then
        Logged(db.rules, db.transitions, Transition(latest.value, Some(Inactive), Inactive, o.reason, o.key, o.actor))
      else Created(db.rules, db.transitions, o, target)
  }

  /** The other tables: the DigiSac departments, and the Acessorias departments by external id. */
  datatype World = World(digisac: set<string>, targets: set<string>)

  function TargetOf(db: Db, o: Order, current: Option<nat>): Option<string>
    requires current.Some? ==> current.value < |db.rules|
  {
    if o.target.Some? then o.target
    else if current.Some? then Some(db.rules[current.value].target)
    else None
  }

  /** The replay check: the recorded operation asked for the same. The department is not compared. */
  predicate SameOperation(db: Db, t: Transition, o: Order)
    requires t.rule < |db.rules|
  {
    t.to == o.wanted && t.reason == o.reason && (o.target.Some? ==> db.rules[t.rule].target == o.target.value)
  }

  function Configured(db: Db, w: World, o: Order): Result<Outcome, Error>
    requires Refers(db)
  {
    var replay := ByKey(db.transitions, o.key);
    if replay.Some? then
      var t := db.transitions[replay.value];
      if SameOperation(db, t, o) then Ok(Outcome(db, t.rule)) else Err(Conflict)
    else if o.digisac !in w.digisac then Err(NotFound)
    else
      var current := ActiveOf(db.rules, o.digisac);
      var target := TargetOf(db, o, current);
      if o.wanted == Inactive && current.Some? && target != Some(db.rules[current.value].target) then Err(Conflict)
      else if target.None? then Err(InvalidArgument)
      else if target.value !in w.targets then Err(NotFound)
      else if o.wanted == Active then Activated(db, o, current, target.value)
      else Inactivated(db, o, current, target.value)
  }

  /** The whole call: the validation, then the transaction. */
  function Requested(hash: string -> string, db: Db, w: World, q: Request): Result<Outcome, Error>
    requires Refers(db)
  {
    var o := Parse(hash, q);
    if o.Err? then Err(o.error) else Configured(db, w, o.value)
  }

  // ---- The repository ----------------------------------------------------------------------------------------

  class MappingStore {
    var rules: seq<Rule>
    var transitions: seq<Transition>

    function State(): Db reads this { Db(rules, transitions) }

    constructor ()
      ensures State() == Db([], [])
    {
      rules, transitions := [], [];
    }

    /** `_transition`. */
    method AppendTransition(t: Transition) returns (result: Result<(), Error>)
      modifies this`transitions
      ensures var added := AddTransition(old(transitions), t);
              && (result.Ok? <==> added.Ok?) && (result.Err? ==> result.error == added.error)
              && transitions == if added.Ok? then added.value else old(transitions)
    {
      var existing := ByKey(transitions, t.key);
      if existing.Some? {
        var e := transitions[existing.value];
        if e.rule != t.rule || e.to != t.to || e.reason != t.reason || e.actor != t.actor {
          return Err(Conflict);
        }
        return Ok(());
      }
      if |t.key| > MAX_KEY {
        return Err(ConstraintViolation);
      }
      transitions := transitions + [t];
      result := Ok(());
    }

    /** `_configure_department_mapping_sync`. */
    method ConfigureRequest(hash: string -> string, w: World, q: Request) returns (result: Result<nat, Error>)
      requires Refers(State())
      modifies this
      ensures var done := Requested(hash, old(State()), w, q);
              && (done.Ok? ==> State() == done.value.db && result == Ok(done.value.rule))
              && (done.Err? ==> State() == old(State()) && result == Err(done.error))
    {
      var order := Parse(hash, q);
      if order.Err? {
        return Err(order.error);
      }
      result := Configure(w, order.value);
    }

    /** The transaction of `_configure_department_mapping_sync`. Every error rolls it back. */
    method Configure(w: World, o: Order) returns (result: Result<nat, Error>)
      requires Refers(State())
      modifies this
      ensures var done := Configured(old(State()), w, o);
              && (result.Ok? <==> done.Ok?)
              && (done.Ok? ==> State() == done.value.db && result == Ok(done.value.rule))
              && (done.Err? ==> State() == old(State()) && result == Err(done.error))
    {
      var before := State();
      result := Change(w, o);
      if result.Err? {
        rules, transitions := before.rules, before.transitions;
      }
    }

    method Change(w: World, o: Order) returns (result: Result<nat, Error>)
      requires Refers(State())
      modifies this
      ensures var done := Configured(old(State()), w, o);
              && (done.Ok? ==> State() == done.value.db && result == Ok(done.value.rule))
              && (done.Err? ==> result == Err(done.error))
    {
      var replay := ByKey(transitions, o.key);
      if replay.Some? {
        var t := transitions[replay.value];
        if t.to != o.wanted || t.reason != o.reason || (o.target.Some? && rules[t.rule].target != o.target.value) {
          return Err(Conflict);
        }
        return Ok(t.rule);
      }
      if o.digisac !in w.digisac {
        return Err(NotFound);
      }
      var current := ActiveOf(rules, o.digisac);
      if o.wanted == Inactive && current.Some? && o.target.Some? && rules[current.value].target != o.target.value {
        return Err(Conflict);
      }
      var target := o.target;
      if target.None? {
        if current.None? {
          return Err(InvalidArgument);
        }
        target := Some(rules[current.value].target);
      }
      if target.value !in w.targets {
        return Err(NotFound);
      }
      if o.wanted == Active {
        result := Activate(o, current, target.value);
      } else {
        result := Inactivate(o, current, target.value);
      }
    }

    method Activate(o: Order, current: Option<nat>, target: string) returns (result: Result<nat, Error>)
      requires current.Some? ==> current.value < |rules|
      modifies this
      ensures var done := Activated(old(State()), o, current, target);
              && (done.Ok? ==> State() == done.value.db && result == Ok(done.value.rule))
              && (done.Err? ==> result == Err(done.error))
    {
      if current.Some? {
        var c := current.value;
        if rules[c].target == target {
          var touched := AppendTransition(Transition(c, Some(Active), Active, o.reason, o.key, o.actor));
          return if touched.Ok? then Ok(c) else Err(touched.error);
        }
        rules := rules[c := rules[c].(state := Inactive)];
        var replaced := AppendTransition(Replacement(o, c));
        if replaced.Err? {
          return Err(replaced.error);
        }
      }
      result := Create(o, target);
    }

    method Create(o: Order, target: string) returns (result: Result<nat, Error>)
      modifies this
      ensures var done := Created(old(rules), old(transitions), o, target);
              && (done.Ok? ==> State() == done.value.db && result == Ok(done.value.rule))
              && (done.Err? ==> result == Err(done.error))
    {
      var version := LastVersion(rules, o.digisac) + 1;
      var id := |rules|;
      rules := rules + [Rule(o.digisac, target, version, o.wanted, o.reason, o.actor, o.metadata, o.effective)];
      var added := AppendTransition(Transition(id, None, o.wanted, o.reason, o.key, o.actor));
      result := if added.Ok? then Ok(id) else Err(added.error);
    }

    method Inactivate(o: Order, current: Option<nat>, target: string) returns (result: Result<nat, Error>)
      requires current.Some? ==> current.value < |rules|
      modifies this
      ensures var done := Inactivated(old(State()), o, current, target);
              && (done.Ok? ==> State() == done.value.db && result == Ok(done.value.rule))
              && (done.Err? ==> result == Err(done.error))
    {
      if current.None? {
        var latest := LatestOf(rules, o.digisac);
        if latest.None? {
          result := Create(o, target);
          return;
        }
        var touched := AppendTransition(Transition(latest.value, Some(Inactive), Inactive, o.reason, o.key, o.actor));
        return if touched.Ok? then Ok(latest.value) else Err(touched.error);
      }
      var c := current.value;
      rules := rules[c := rules[c].(state := Inactive, reason := o.reason, actor := o.actor, metadata := o.metadata)];
      var added := AppendTransition(Transition(c, Some(Active), Inactive, o.reason, o.key, o.actor));
      result := if added.Ok? then Ok(c) else Err(added.error);
    }
  }
}
