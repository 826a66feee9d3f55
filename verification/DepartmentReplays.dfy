/** What whole mapping calls mean, from their arguments: when an activation takes effect, when a call is the
    replay of an earlier one, and which calls derive one key (`src/core/department_mapping.py`). */
module DepartmentReplays {
  import opened Common
  import opened DepartmentMapping
  import opened DepartmentMappingSafety

  // ---- The arguments ------------------------------------------------------------------------------------

  function DigisacOf(q: Request): string { Strip(q.digisac) }

  function TargetIn(q: Request): Option<string> { if q.target.None? then None else Some(Strip(q.target.value)) }

  function WantedOf(q: Request): State { if q.active then Active else Inactive }

  function ReasonOf(q: Request): string { Lower(Strip(q.reason)) }

  function OperationOf(hash: string -> string, q: Request): string {
    if q.operation.Some? then Lower(Strip(q.operation.value))
    else DerivedKey(hash, WantedOf(q), DigisacOf(q), TargetIn(q), ReasonOf(q))
  }

  lemma Parsed(hash: string -> string, q: Request)
    requires Parse(hash, q).Ok?
    ensures var o := Parse(hash, q).value;
            && o.digisac == DigisacOf(q) && o.target == TargetIn(q) && o.wanted == WantedOf(q)
            && o.reason == ReasonOf(q) && o.key == OperationOf(hash, q)
            && Matches(o.reason, ReasonChar, 120)
  {
    hide Safe, SafeOptional, ExternalId, Strip, Lower, Matches, DerivedKey;
  }

  /** Which calls are accepted for the transaction: those with usable ids, a safe reason, a safe actor and key if
      they give any, and safe metadata. */
  lemma ParseExactly(hash: string -> string, q: Request)
    ensures Parse(hash, q).Ok? <==>
            && ExternalId(q.digisac).Ok? && (q.target.Some? ==> ExternalId(q.target.value).Ok?)
            && Matches(ReasonOf(q), ReasonChar, 120)
            && (q.actor.Some? ==> Matches(Lower(Strip(q.actor.value)), KeyChar, 120))
            && (q.operation.Some? ==> Matches(Lower(Strip(q.operation.value)), KeyChar, 240))
            && q.metadata.Ok?
    ensures Parse(hash, q).Ok? ==>
              var o := Parse(hash, q).value;
              && o.actor == (if q.actor.Some? then Some(Lower(Strip(q.actor.value))) else None)
              && o.metadata == q.metadata.value && o.effective == q.effective
  {
    hide ExternalId, Strip, Lower, Matches, DerivedKey;
  }

  // ---- When an activation takes effect ------------------------------------------------------------------

  /** When a successful activation leaves its target active: exactly when its key was new, or the target was
      active already. A replay only reports the old rule. */
  lemma ActivationTakesEffect(hash: string -> string, db: Db, w: World, q: Request)
    requires Inv(db) && q.active && q.target.Some? && Requested(hash, db, w, q).Ok?
    ensures var target := Strip(q.target.value);
            ActiveTarget(Requested(hash, db, w, q).value.db.rules, DigisacOf(q), target) <==>
            FreshKey(db.transitions, OperationOf(hash, q)) || ActiveTarget(db.rules, DigisacOf(q), target)
  {
    hide Configured, ActiveTarget;
    Parsed(hash, q);
    OrderTakesEffect(db, w, Parse(hash, q).value);
  }

  // ---- When a call is a replay --------------------------------------------------------------------------

  ghost predicate Records(t: Transition, o: Order, rule: nat) {
    t.key == o.key && t.rule == rule && t.to == o.wanted && t.reason == o.reason
  }

  /** The log has the operation of `o`, on `rule`. */
  ghost predicate Recorded(db: Db, o: Order, rule: nat) {
    rule < |db.rules| && exists i :: 0 <= i < |db.transitions| && Records(db.transitions[i], o, rule)
  }

  ghost predicate LastRecords(done: Result<Outcome, Error>, o: Order) {
    done.Ok? ==>
      && done.value.db.transitions != []
      && Records(done.value.db.transitions[|done.value.db.transitions| - 1], o, done.value.rule)
  }

  lemma LoggedLast(rules: seq<Rule>, ts: seq<Transition>, t: Transition, o: Order)
    requires FreshKey(ts, o.key) && Records(t, o, t.rule)
    ensures LastRecords(Logged(rules, ts, t), o)
  {
  }

  lemma CreatedLast(rules: seq<Rule>, ts: seq<Transition>, o: Order, target: string)
    requires FreshKey(ts, o.key)
    ensures LastRecords(Created(rules, ts, o, target), o)
  {
    var rule := Rule(o.digisac, target, LastVersion(rules, o.digisac) + 1, o.wanted, o.reason, o.actor, o.metadata, o.effective);
    LoggedLast(rules + [rule], ts, Transition(|rules|, None, o.wanted, o.reason, o.key, o.actor), o);
  }

  lemma ActivatedLast(db: Db, o: Order, target: string)
    requires Inv(db) && FreshKey(db.transitions, o.key) && o.wanted == Active
    ensures LastRecords(Activated(db, o, ActiveOf(db.rules, o.digisac), target), o)
  {
    hide LastRecords, Created, Logged;
    var current := ActiveOf(db.rules, o.digisac);
    if current.None? {
      CreatedLast(db.rules, db.transitions, o, target);
    } else {
      var c := current.value;
      LoggedLast(db.rules, db.transitions, Transition(c, Some(Active), Active, o.reason, o.key, o.actor), o);
      ReplacementLogged(db, o, c);
      FreshAfter(db.transitions, Replacement(o, c), o.key);
      CreatedLast(db.rules[c := db.rules[c].(state := Inactive)], db.transitions + [Replacement(o, c)], o, target);
      RefusedRecordsNothing(AddTransition(db.transitions, Replacement(o, c)), o);
    }
  }

  lemma RefusedRecordsNothing(added: Result<seq<Transition>, Error>, o: Order)
    ensures added.Err? ==> LastRecords(Err(added.error), o)
  {
  }

  lemma InactivatedLast(db: Db, o: Order, target: string)
    requires FreshKey(db.transitions, o.key) && o.wanted == Inactive
    ensures LastRecords(Inactivated(db, o, ActiveOf(db.rules, o.digisac), target), o)
  {
    hide LastRecords, Created, Logged;
    var current, latest := ActiveOf(db.rules, o.digisac), LatestOf(db.rules, o.digisac);
    if current.Some? {
      var c := current.value;
      var rule := db.rules[c].(state := Inactive, reason := o.reason, actor := o.actor, metadata := o.metadata);
      LoggedLast(db.rules[c := rule], db.transitions, Transition(c, Some(Active), Inactive, o.reason, o.key, o.actor), o);
    } else if latest.Some? {
      LoggedLast(db.rules, db.transitions, Transition(latest.value, Some(Inactive), Inactive, o.reason, o.key, o.actor), o);
    } else {
      CreatedLast(db.rules, db.transitions, o, target);
    }
  }

  lemma SuccessIsLogged(db: Db, w: World, o: Order)
    requires Inv(db) && FreshKey(db.transitions, o.key) && Configured(db, w, o).Ok?
    ensures LastRecords(Configured(db, w, o), o)
  {
    hide LastRecords, Activated, Inactivated;
    var target := TargetOf(db, o, ActiveOf(db.rules, o.digisac));
    if o.wanted == Active { ActivatedLast(db, o, target.value); } else { InactivatedLast(db, o, target.value); }
  }

  /** An inactivation that finds no active rule is logged on the latest one, even when it named another target. */
  ghost predicate LoggedElsewhere(db: Db, o: Order) {
    && o.wanted == Inactive && o.target.Some? && ActiveOf(db.rules, o.digisac).None?
    && var latest := LatestOf(db.rules, o.digisac);
       latest.Some? && db.rules[latest.value].target != o.target.value
  }

  lemma TargetOfRule(db: Db, w: World, o: Order)
    requires Inv(db) && FreshKey(db.transitions, o.key) && Configured(db, w, o).Ok?
    ensures var done := Configured(db, w, o).value;
            done.rule < |done.db.rules| &&
            (o.target.Some? ==> (done.db.rules[done.rule].target == o.target.value <==> !LoggedElsewhere(db, o)))
  {
    FreshKeyTakesEffect(db, w, o);
  }

  lemma SuccessIsRecorded(db: Db, w: World, o: Order)
    requires Inv(db) && Configured(db, w, o).Ok?
    ensures var done := Configured(db, w, o).value; Inv(done.db) && Recorded(done.db, o, done.rule)
  {
    hide Inv;
    ConfiguredKept(db, w, o);
    RefersKept(db);
    var done := Configured(db, w, o).value;
    RefersKept(done.db);
    if FreshKey(db.transitions, o.key) {
      SuccessIsLogged(db, w, o);
      assert Records(done.db.transitions[|done.db.transitions| - 1], o, done.rule);
    } else {
      assert Records(db.transitions[ByKey(db.transitions, o.key).value], o, done.rule);
    }
  }

  lemma RefersKept(db: Db)
    requires Inv(db)
    ensures Refers(db) && KeysUnique(db.transitions)
  {
  }

  lemma RecordedStays(a: Db, b: Db, o: Order, rule: nat)
    requires Recorded(a, o, rule) && Kept(a, b)
    ensures Recorded(b, o, rule) && b.rules[rule].target == a.rules[rule].target
  {
    var i :| 0 <= i < |a.transitions| && Records(a.transitions[i], o, rule);
    assert b.transitions[i] == a.transitions[i];
  }

  /** A recorded operation decides every call with its key. */
  lemma AnsweredFromLog(db: Db, w: World, recorded: Order, rule: nat, o: Order)
    requires Inv(db) && Recorded(db, recorded, rule) && o.key == recorded.key
    ensures Configured(db, w, o) ==
            if o.wanted == recorded.wanted && o.reason == recorded.reason
               && (o.target.Some? ==> o.target.value == db.rules[rule].target)
            then Ok(Outcome(db, rule)) else Err(Conflict)
  {
    hide Inv, Activated, Inactivated;
    RefersKept(db);
    var i :| 0 <= i < |db.transitions| && Records(db.transitions[i], recorded, rule);
    KeyFound(db.transitions, i);
  }

  /** Once an operation succeeded, the log answers every later call with its key, given or derived, after any
      calls in between: with the same rule when the state, the reason and a target, if given, are the same, and
      with a conflict otherwise. The department and the actor make no difference. */
  lemma SharedKeyAnswers(hash: string -> string, db: Db, w: World, q: Request, calls: seq<Call>, later: World, again: Request)
    requires Inv(db) && Requested(hash, db, w, q).Ok? && Parse(hash, again).Ok?
    requires OperationOf(hash, again) == OperationOf(hash, q)
    ensures var done := Requested(hash, db, w, q).value;
            && Inv(done.db) && done.rule < |done.db.rules|
            && var now := Run(done.db, calls);
               Requested(hash, now, later, again) ==
               if WantedOf(again) == WantedOf(q) && ReasonOf(again) == ReasonOf(q)
                  && (again.target.Some? ==> Strip(again.target.value) == done.db.rules[done.rule].target)
               then Ok(Outcome(now, done.rule)) else Err(Conflict)
  {
    hide Inv, Configured, Parse, Recorded, OperationOf, WantedOf, ReasonOf, Kept;
    RefersKept(db);
    Parsed(hash, q);
    Parsed(hash, again);
    var o, done := Parse(hash, q).value, Requested(hash, db, w, q).value;
    SuccessIsRecorded(db, w, o);
    var now := Run(done.db, calls);
    RefersKept(now);
    RecordedStays(done.db, now, o, done.rule);
    AnsweredFromLog(now, later, o, done.rule, Parse(hash, again).value);
    RecordedRule(done.db, o, done.rule);
  }

  lemma RecordedRule(db: Db, o: Order, rule: nat)
    requires Recorded(db, o, rule)
    ensures rule < |db.rules|
  {
  }

  /** A retry of a successful call, after any calls in between, answers its rule and changes nothing, unless the
      call was an inactivation that was logged on a rule of another target: then the retry is refused. */
  lemma RetryExactly(hash: string -> string, db: Db, w: World, q: Request, calls: seq<Call>, later: World)
    requires Inv(db) && Requested(hash, db, w, q).Ok? && FreshKey(db.transitions, OperationOf(hash, q))
    ensures var done := Requested(hash, db, w, q).value;
            && Inv(done.db)
            && var now := Run(done.db, calls);
               Requested(hash, now, later, q) ==
               if LoggedElsewhere(db, Parse(hash, q).value) then Err(Conflict) else Ok(Outcome(now, done.rule))
  {
    hide Inv, Configured, Parse, OperationOf, WantedOf, ReasonOf, LoggedElsewhere, FreshKey;
    RefersKept(db);
    Parsed(hash, q);
    SharedKeyAnswers(hash, db, w, q, calls, later, q);
    var o := Parse(hash, q).value;
    TargetOfRule(db, w, o);
    OnlyWithTarget(db, o);
  }

  lemma OnlyWithTarget(db: Db, o: Order)
    ensures LoggedElsewhere(db, o) ==> o.target.Some?
  {
  }

  // ---- Mapping back -------------------------------------------------------------------------------------

  lemma OneActive(db: Db, digisac: string, a: string, b: string)
    requires Inv(db) && ActiveTarget(db.rules, digisac, b) && a != b
    ensures !ActiveTarget(db.rules, digisac, a)
  {
  }

  /** The third of three activations says again what the first one said. */
  ghost predicate MapsBack(first: Request, second: Request, third: Request) {
    && first.active && second.active && third.active
    && first.operation.None? && third.operation.None?
    && first.target.Some? && second.target.Some? && TargetIn(third) == TargetIn(first) != TargetIn(second)
    && DigisacOf(first) == DigisacOf(second) == DigisacOf(third) && ReasonOf(third) == ReasonOf(first)
  }

  lemma RunOneMore(db: Db, calls: seq<Call>, c: Call)
    requires Inv(db)
    ensures var before := Run(db, calls); Refers(before) && Run(db, calls + [c]) == Apply(before, c)
  {
    assert (calls + [c])[..|calls|] == calls;
  }

  /** Mapping a department to one target, then after any calls to another under a new key, then back with the
      reason of the first call and no key: the third call succeeds and does nothing. The second target stays
      active and the first one stays inactive. */
  lemma RemapBackIsReplay(hash: string -> string, db: Db, w1: World, q1: Request, calls: seq<Call>, w2: World, q2: Request,
                          w3: World, q3: Request)
    requires Inv(db) && MapsBack(q1, q2, q3) && Requested(hash, db, w1, q1).Ok? && Parse(hash, q3).Ok?
    ensures var first := Requested(hash, db, w1, q1).value;
            Inv(first.db) &&
            var middle := Run(first.db, calls);
            var second := Requested(hash, middle, w2, q2);
            FreshKey(middle.transitions, OperationOf(hash, q2)) && second.Ok? ==>
              && Inv(second.value.db)
              && Requested(hash, second.value.db, w3, q3) == Ok(Outcome(second.value.db, first.rule))
              && ActiveTarget(second.value.db.rules, DigisacOf(q1), Strip(q2.target.value))
              && !ActiveTarget(second.value.db.rules, DigisacOf(q1), Strip(q1.target.value))
  {
    hide Inv, Configured, Parse, FreshKey, ActiveTarget;
    RefersKept(db);
    SharedKeyAnswers(hash, db, w1, q1, calls, w2, q3);
    var first := Requested(hash, db, w1, q1).value;
    var middle := Run(first.db, calls);
    RefersKept(middle);
    var second := Requested(hash, middle, w2, q2);
    if FreshKey(middle.transitions, OperationOf(hash, q2)) && second.Ok? {
      var next := Call(w2, Parse(hash, q2).value);
      RunOneMore(first.db, calls, next);
      SharedKeyAnswers(hash, db, w1, q1, calls + [next], w3, q3);
      FirstHasTarget(hash, db, w1, q1);
      ActivationTakesEffect(hash, middle, w2, q2);
      OneActive(second.value.db, DigisacOf(q1), Strip(q1.target.value), Strip(q2.target.value));
    }
  }

  /** The rule that a successful activation answers has the target that was asked for. */
  lemma FirstHasTarget(hash: string -> string, db: Db, w: World, q: Request)
    requires Inv(db) && q.active && q.target.Some? && Requested(hash, db, w, q).Ok?
    ensures var done := Requested(hash, db, w, q).value;
            done.rule < |done.db.rules| && done.db.rules[done.rule].target == Strip(q.target.value)
  {
    hide Parse, Inv, Activated, Inactivated;
    Parsed(hash, q);
    RefersKept(db);
    var o := Parse(hash, q).value;
    if FreshKey(db.transitions, o.key) { FreshKeyTakesEffect(db, w, o); }
  }

  // ---- Which calls derive one key -------------------------------------------------------------------------

  function TargetName(target: Option<string>): string { if target.Some? then target.value else "current" }

  lemma BarAfter(x: string, r: string, y: string, s: string)
    requires x + "|" + r == y + "|" + s
    ensures |x| < |y| ==> '|' in r
  {
    if |x| < |y| { assert (x + "|" + r)[|y|] == (y + "|" + s)[|y|] == '|'; }
  }

  lemma SplitAtLastBar(x: string, r: string, y: string, s: string)
    requires '|' !in r && '|' !in s && x + "|" + r == y + "|" + s
    ensures x == y && r == s
  {
    var t, u := x + "|" + r, y + "|" + s;
    BarAfter(x, r, y, s);
    BarAfter(y, s, x, r);
    assert x == t[..|x|] && y == u[..|y|] && r == t[|x| + 1..] && s == u[|y| + 1..];
  }

  const SOURCE := "manual_db|"

  lemma KeyTextParts(wanted: State, digisac: string, target: Option<string>, reason: string)
    ensures KeyText(wanted, digisac, target, reason) ==
            SOURCE + StateName(wanted) + "|" + (digisac + "|" + TargetName(target)) + "|" + reason
  {
  }

  lemma StateFirst(v: State, w: State, a: string, b: string)
    requires SOURCE + StateName(v) + "|" + a == SOURCE + StateName(w) + "|" + b
    ensures v == w && a == b
  {
    var s, t := SOURCE + StateName(v) + "|" + a, SOURCE + StateName(w) + "|" + b;
    assert s[10] == StateName(v)[0] && t[10] == StateName(w)[0];
    assert a == s[11 + |StateName(v)|..] && b == t[11 + |StateName(w)|..];
  }

  lemma KeyTextsEqual(v: State, d: string, t: Option<string>, r: string, w: State, e: string, u: Option<string>, s: string)
    requires '|' !in r && '|' !in s
    ensures KeyText(v, d, t, r) == KeyText(w, e, u, s) <==>
            v == w && r == s && d + "|" + TargetName(t) == e + "|" + TargetName(u)
  {
    hide KeyText, StateName, TargetName;
    KeyTextParts(v, d, t, r);
    KeyTextParts(w, e, u, s);
    if KeyText(v, d, t, r) == KeyText(w, e, u, s) {
      var a, b := d + "|" + TargetName(t), e + "|" + TargetName(u);
      SplitAtLastBar(SOURCE + StateName(v) + "|" + a, r, SOURCE + StateName(w) + "|" + b, s);
      StateFirst(v, w, a, b);
    }
  }

  lemma NoBar(reason: string)
    requires Matches(reason, ReasonChar, 120)
    ensures '|' !in reason
  {
  }

  function TextOf(q: Request): string { KeyText(WantedOf(q), DigisacOf(q), TargetIn(q), ReasonOf(q)) }

  /** When two calls without a key derive the same one, the hash having no collision on their two texts: same
      state, same reason, and the same text of department, bar and target. Ids may have bars of their own, and
      a missing target reads as "current". */
  lemma DerivedKeysEqual(hash: string -> string, q: Request, p: Request)
    requires Parse(hash, q).Ok? && Parse(hash, p).Ok? && q.operation.None? && p.operation.None?
    requires hash(TextOf(q)) == hash(TextOf(p)) ==> TextOf(q) == TextOf(p)
    ensures OperationOf(hash, q) == OperationOf(hash, p) <==>
            && WantedOf(q) == WantedOf(p) && ReasonOf(q) == ReasonOf(p)
            && DigisacOf(q) + "|" + TargetName(TargetIn(q)) == DigisacOf(p) + "|" + TargetName(TargetIn(p))
  {
    hide Parse, KeyText, WantedOf, ReasonOf, DigisacOf, TargetIn, TargetName, Matches;
    Parsed(hash, q);
    Parsed(hash, p);
    NoBar(ReasonOf(q));
    NoBar(ReasonOf(p));
    KeyTextsEqual(WantedOf(q), DigisacOf(q), TargetIn(q), ReasonOf(q), WantedOf(p), DigisacOf(p), TargetIn(p), ReasonOf(p));
    var prefix, x, y := "manual_db:", hash(TextOf(q)), hash(TextOf(p));
    assert (prefix + x)[10..] == x && (prefix + y)[10..] == y;
  }

  // ---- Runs that happen ---------------------------------------------------------------------------------------

  /** The first activation of empty tables. */
  lemma FirstActivation(hash: string -> string, w: World, q: Request)
    requires Parse(hash, q).Ok? && q.active && q.target.Some? && |OperationOf(hash, q)| <= MAX_KEY
    requires DigisacOf(q) in w.digisac && Strip(q.target.value) in w.targets
    ensures var done := Requested(hash, EMPTY, w, q);
            && done.Ok? && Inv(done.value.db) && done.value.rule == 0
            && |done.value.db.rules| == 1 && |done.value.db.transitions| == 1
            && done.value.db.transitions[0].key == OperationOf(hash, q)
            && done.value.db.rules[0].digisac == DigisacOf(q) && done.value.db.rules[0].target == Strip(q.target.value)
            && done.value.db.rules[0].state == Active
  {
    hide Parse, Inv, OperationOf, Strip;
    Parsed(hash, q);
    EmptyKept();
    FreshKeyTakesEffect(EMPTY, w, Parse(hash, q).value);
  }

  lemma EmptyKept()
    ensures Inv(EMPTY)
  {
  }

  /** From empty tables, for any two ids and any reason, the run happens: the first two calls succeed, and the
      third one does nothing. */
  lemma RemapBackHappens(hash: string -> string, w: World, q1: Request, q2: Request, q3: Request)
    requires MapsBack(q1, q2, q3) && q2.operation.None?
    requires Parse(hash, q1).Ok? && Parse(hash, q2).Ok? && Parse(hash, q3).Ok?
    requires DigisacOf(q1) in w.digisac && Strip(q1.target.value) in w.targets && Strip(q2.target.value) in w.targets
    requires forall s :: |hash(s)| == 64
    requires hash(TextOf(q1)) == hash(TextOf(q2)) ==> TextOf(q1) == TextOf(q2)
    ensures var first := Requested(hash, EMPTY, w, q1);
            first.Ok? && Refers(first.value.db) &&
            var second := Requested(hash, first.value.db, w, q2);
            && second.Ok? && Refers(second.value.db)
            && Requested(hash, second.value.db, w, q3) == Ok(Outcome(second.value.db, first.value.rule))
            && ActiveTarget(second.value.db.rules, DigisacOf(q1), Strip(q2.target.value))
            && !ActiveTarget(second.value.db.rules, DigisacOf(q1), Strip(q1.target.value))
  {
    hide Parse, Inv, ActiveTarget, Activated, Inactivated, Strip, DerivedKey;
    DerivedLength(hash, q1);
    DerivedLength(hash, q2);
    FirstActivation(hash, w, q1);
    var first := Requested(hash, EMPTY, w, q1);
    RefersKept(first.value.db);
    DifferentTargets(hash, q1, q2);
    Parsed(hash, q2);
    var o := Parse(hash, q2).value;
    FreshKeyTakesEffect(first.value.db, w, o);
    SecondAcceptable(first.value.db, w, o);
    EmptyKept();
    RemapBackIsReplay(hash, EMPTY, w, q1, [], w, q2, w, q3);
    RefersKept(Requested(hash, first.value.db, w, q2).value.db);
  }

  lemma DerivedLength(hash: string -> string, q: Request)
    requires q.operation.None? && forall s :: |hash(s)| == 64
    ensures |OperationOf(hash, q)| == 74
  {
  }

  lemma DifferentTargets(hash: string -> string, q: Request, p: Request)
    requires Parse(hash, q).Ok? && Parse(hash, p).Ok? && q.operation.None? && p.operation.None?
    requires hash(TextOf(q)) == hash(TextOf(p)) ==> TextOf(q) == TextOf(p)
    requires DigisacOf(q) == DigisacOf(p) && TargetIn(q).Some? && TargetIn(p).Some? && TargetIn(q) != TargetIn(p)
    ensures OperationOf(hash, q) != OperationOf(hash, p)
  {
    hide Parse, OperationOf, DigisacOf, TargetIn, TextOf;
    DerivedKeysEqual(hash, q, p);
    var prefix, x, y := DigisacOf(q) + "|", TargetIn(q).value, TargetIn(p).value;
    assert (prefix + x)[|prefix|..] == x && (prefix + y)[|prefix|..] == y;
  }

  lemma SecondAcceptable(db: Db, w: World, o: Order)
    requires |db.transitions| == 1 && db.transitions[0].key != o.key && |db.transitions[0].key| == |o.key| == 74
    requires o.wanted == Active && o.digisac in w.digisac && o.target.Some? && o.target.value in w.targets
    ensures FreshKey(db.transitions, o.key) && Acceptable(db, w, o)
  {
    assert |o.key + ":deactivate"| == 85;
    assert FreshKey(db.transitions, o.key + ":deactivate");
  }

  /** A department id with a bar can derive the key of another department: after the one call succeeded, the
      other call is answered with the first department's rule, though its own department has none. */
  lemma OtherDepartmentAnswered(hash: string -> string, w: World, q: Request, later: World, p: Request, middle: string)
    requires Parse(hash, q).Ok? && Parse(hash, p).Ok? && q.operation.None? && p.operation.None? && q.active && p.active
    requires forall s :: |hash(s)| == 64
    requires q.target.Some? && p.target.None? && ReasonOf(p) == ReasonOf(q)
    requires Strip(q.target.value) == middle + "|current" && DigisacOf(p) == DigisacOf(q) + "|" + middle
    requires DigisacOf(q) in w.digisac && Strip(q.target.value) in w.targets
    ensures var first := Requested(hash, EMPTY, w, q);
            && first.Ok? && Refers(first.value.db)
            && Requested(hash, first.value.db, later, p) == Ok(first.value)
            && first.value.rule < |first.value.db.rules| && first.value.db.rules[first.value.rule].digisac == DigisacOf(q)
            && DigisacOf(q) != DigisacOf(p)
            && LatestOf(first.value.db.rules, DigisacOf(p)).None?
  {
    hide Parse, Inv, Configured, Strip, KeyText;
    DerivedLength(hash, q);
    FirstActivation(hash, w, q);
    var first := Requested(hash, EMPTY, w, q);
    RefersKept(first.value.db);
    assert |DigisacOf(q)| < |DigisacOf(p)|;
    KeyTextParts(Active, DigisacOf(q), TargetIn(q), ReasonOf(q));
    KeyTextParts(Active, DigisacOf(p), TargetIn(p), ReasonOf(p));
    assert DigisacOf(q) + "|" + TargetName(TargetIn(q)) == DigisacOf(p) + "|" + TargetName(TargetIn(p));
    assert TextOf(q) == TextOf(p);
    EmptyKept();
    SharedKeyAnswers(hash, EMPTY, w, q, [], later, p);
  }

  /** The state that two calls leave: the department's only rule is inactive. */
  ghost predicate OneInactive(db: Db, digisac: string, target: string, key1: string, key2: string) {
    && Inv(db) && |db.rules| == 1 && db.rules[0].digisac == digisac && db.rules[0].target == target
    && ActiveOf(db.rules, digisac).None? && |db.transitions| == 2
    && db.transitions[0].key == key1 && db.transitions[1].key == key2
  }

  lemma ThenInactivation(db: Db, w: World, o: Order)
    requires Inv(db) && |db.rules| == 1 && |db.transitions| == 1 && db.rules[0].state == Active
    requires db.rules[0].digisac == o.digisac && db.rules[0].target in w.targets && o.digisac in w.digisac
    requires o.wanted == Inactive && o.target.None? && o.key != db.transitions[0].key && |o.key| <= MAX_KEY
    ensures var done := Configured(db, w, o);
            done.Ok? && OneInactive(done.value.db, o.digisac, db.rules[0].target, db.transitions[0].key, o.key)
  {
    hide Inv;
    RefersKept(db);
    FreshKeyTakesEffect(db, w, o);
  }

  lemma ThenElsewhere(db: Db, w: World, o: Order, target: string, key1: string, key2: string)
    requires OneInactive(db, o.digisac, target, key1, key2) && o.wanted == Inactive && o.target.Some?
    requires o.target.value != target && o.target.value in w.targets && o.digisac in w.digisac
    requires o.key != key1 && o.key != key2 && |o.key| <= MAX_KEY
    ensures FreshKey(db.transitions, o.key) && LoggedElsewhere(db, o) && Configured(db, w, o).Ok?
  {
    hide Inv;
    RefersKept(db);
    var latest := LatestOf(db.rules, o.digisac);
    assert latest == Some(0);
    FreshKeyTakesEffect(db, w, o);
  }

  /** From empty tables, for any two ids, the refused retry happens: activate one target, inactivate it, then
      inactivate naming the other one. The last call succeeds, and the same call again is a conflict. */
  lemma RetryRefused(hash: string -> string, w: World, q1: Request, q2: Request, q3: Request)
    requires Parse(hash, q1).Ok? && Parse(hash, q2).Ok? && Parse(hash, q3).Ok? && q1.active && !q2.active && !q3.active
    requires q1.target.Some? && q2.target.None? && q3.target.Some? && TargetIn(q1) != TargetIn(q3)
    requires DigisacOf(q1) == DigisacOf(q2) == DigisacOf(q3) && DigisacOf(q1) in w.digisac
    requires Strip(q1.target.value) in w.targets && Strip(q3.target.value) in w.targets
    requires var k1, k2, k3 := OperationOf(hash, q1), OperationOf(hash, q2), OperationOf(hash, q3);
             k1 != k2 && k1 != k3 && k2 != k3 && |k1| <= MAX_KEY && |k2| <= MAX_KEY && |k3| <= MAX_KEY
    ensures var first := Requested(hash, EMPTY, w, q1);
            first.Ok? && Refers(first.value.db) &&
            var second := Requested(hash, first.value.db, w, q2);
            second.Ok? && Refers(second.value.db) &&
            var third := Requested(hash, second.value.db, w, q3);
            third.Ok? && Refers(third.value.db) && Requested(hash, third.value.db, w, q3) == Err(Conflict)
  {
    hide Parse, Inv, Configured, OperationOf, Strip, LoggedElsewhere, FreshKey;
    FirstActivation(hash, w, q1);
    Parsed(hash, q2);
    Parsed(hash, q3);
    var first := Requested(hash, EMPTY, w, q1).value.db;
    RefersKept(first);
    ThenInactivation(first, w, Parse(hash, q2).value);
    var second := Requested(hash, first, w, q2).value.db;
    RefersKept(second);
    ThenElsewhere(second, w, Parse(hash, q3).value, Strip(q1.target.value), OperationOf(hash, q1), OperationOf(hash, q2));
    RetryExactly(hash, second, w, q3, [], w);
    RefersKept(Requested(hash, second, w, q3).value.db);
  }
}
