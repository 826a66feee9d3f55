/** What every run of mapping operations keeps: versions, the single active rule, fixed targets, the chain of
    each rule's transitions, and replays. */
module DepartmentMappingSafety {
  import opened Common
  import opened Numbering
  import opened DepartmentMapping

  // ---- The invariant ---------------------------------------------------------------------------------

  function Departments(rules: seq<Rule>): seq<string> { seq(|rules|, i requires 0 <= i < |rules| => rules[i].digisac) }

  function Versions(rules: seq<Rule>): seq<nat> { seq(|rules|, i requires 0 <= i < |rules| => rules[i].version) }

  ghost predicate OnlyLastActive(rules: seq<Rule>) {
    forall i, j :: 0 <= i < j < |rules| && rules[i].digisac == rules[j].digisac ==> rules[i].state == Inactive
  }

  ghost predicate KeysUnique(ts: seq<Transition>) {
    forall i, j :: 0 <= i < j < |ts| ==> ts[i].key != ts[j].key
  }

  /** The state that the log gives a rule. */
  function LoggedState(ts: seq<Transition>, rule: nat): Option<State> {
    if ts == [] then None
    else if ts[|ts| - 1].rule == rule then Some(ts[|ts| - 1].to)
    else LoggedState(ts[..|ts| - 1], rule)
  }

  /** The transitions of each rule form a chain, from none to the state that the rule has now. */
  ghost predicate Chained(db: Db) {
    && (forall i :: 0 <= i < |db.transitions| ==>
          db.transitions[i].before == LoggedState(db.transitions[..i], db.transitions[i].rule))
    && (forall r :: 0 <= r < |db.rules| ==> LoggedState(db.transitions, r) == Some(db.rules[r].state))
    && (forall r :: r >= |db.rules| ==> LoggedState(db.transitions, r) == None)
  }

  ghost predicate NeverReactivated(ts: seq<Transition>) {
    forall j :: 0 <= j < |ts| && ts[j].to == Active ==> ts[j].before != Some(Inactive)
  }

  ghost predicate Inv(db: Db) {
    && Refers(db) && Numbered(Departments(db.rules), Versions(db.rules)) && OnlyLastActive(db.rules)
    && KeysUnique(db.transitions) && Chained(db) && NeverReactivated(db.transitions)
  }

  /** Rules keep their departments, target and version, and an inactive rule stays inactive; the log only grows. */
  ghost predicate Kept(a: Db, b: Db) {
    && |a.rules| <= |b.rules| && a.transitions <= b.transitions
    && forall i :: 0 <= i < |a.rules| ==>
         && b.rules[i].digisac == a.rules[i].digisac && b.rules[i].target == a.rules[i].target
         && b.rules[i].version == a.rules[i].version
         && (a.rules[i].state == Inactive ==> b.rules[i].state == Inactive)
  }

  // ---- The two kinds of change ------------------------------------------------------------------------------

  lemma LoggedAppend(ts: seq<Transition>, t: Transition, rule: nat)
    ensures LoggedState(ts + [t], rule) == if t.rule == rule then Some(t.to) else LoggedState(ts, rule)
  {
    assert (ts + [t])[..|ts|] == ts;
  }

  lemma ChainAppend(db: Db, rules: seq<Rule>, t: Transition)
    requires Chained(db) && t.before == LoggedState(db.transitions, t.rule) && t.rule < |rules|
    requires |db.rules| <= |rules| <= |db.rules| + 1 && (|rules| > |db.rules| ==> t.rule == |db.rules|)
    requires rules[t.rule].state == t.to
    requires forall r :: 0 <= r < |db.rules| && r != t.rule ==> rules[r].state == db.rules[r].state
    ensures Chained(Db(rules, db.transitions + [t]))
  {
    var ts := db.transitions + [t];
    forall i | 0 <= i < |ts| ensures ts[i].before == LoggedState(ts[..i], ts[i].rule) {
      if i < |db.transitions| {
        assert ts[..i] == db.transitions[..i];
      } else {
        assert ts[..i] == db.transitions;
      }
    }
    forall r: nat ensures r < |rules| ==> LoggedState(ts, r) == Some(rules[r].state)
      ensures r >= |rules| ==> LoggedState(ts, r) == None
    {
      LoggedAppend(db.transitions, t, r);
    }
  }

  ghost predicate FreshKey(ts: seq<Transition>, key: string) { ByKey(ts, key).None? }

  lemma LogAppend(ts: seq<Transition>, t: Transition)
    requires KeysUnique(ts) && NeverReactivated(ts) && FreshKey(ts, t.key) && (t.to == Active ==> t.before != Some(Inactive))
    ensures KeysUnique(ts + [t]) && NeverReactivated(ts + [t])
  {
  }

  /** A rule moves on from the state that it has, and never back to active. */
  lemma MoveKept(db: Db, next: Rule, t: Transition)
    requires Inv(db) && t.rule < |db.rules| && FreshKey(db.transitions, t.key)
    requires var r := db.rules[t.rule];
             && next.digisac == r.digisac && next.target == r.target && next.version == r.version
             && next.state == t.to && t.before == Some(r.state) && (t.to == Active ==> r.state == Active)
    ensures var after := Db(db.rules[t.rule := next], db.transitions + [t]); Inv(after) && Kept(db, after)
  {
    hide KeysUnique, NeverReactivated, FreshKey, Numbered, OnlyLastActive, Departments, Versions, Chained;
    MovedRules(db.rules, t.rule, next);
    LogAppend(db.transitions, t);
    BeforeIsLogged(db, t.rule);
    ChainAppend(db, db.rules[t.rule := next], t);
  }

  lemma BeforeIsLogged(db: Db, rule: nat)
    requires Chained(db) && rule < |db.rules|
    ensures LoggedState(db.transitions, rule) == Some(db.rules[rule].state)
  {
  }

  lemma MovedRules(rules: seq<Rule>, i: nat, next: Rule)
    requires i < |rules| && OnlyLastActive(rules) && next.digisac == rules[i].digisac && next.version == rules[i].version
    requires next.state == Active ==> rules[i].state == Active
    ensures OnlyLastActive(rules[i := next])
    ensures Departments(rules[i := next]) == Departments(rules) && Versions(rules[i := next]) == Versions(rules)
  {
  }

  lemma AppendRule(rules: seq<Rule>, rule: Rule)
    requires Numbered(Departments(rules), Versions(rules)) && rule.version == LastVersion(rules, rule.digisac) + 1
    ensures Numbered(Departments(rules + [rule]), Versions(rules + [rule]))
  {
    var n, latest := LastVersion(rules, rule.digisac), LatestOf(rules, rule.digisac);
    if latest.Some? {
      assert Departments(rules)[latest.value] == rule.digisac && Versions(rules)[latest.value] == n;
    }
    GreatestIsCount(Departments(rules), Versions(rules), rule.digisac, n);
    AppendNumbered(Departments(rules), Versions(rules), rule.digisac, rule.version);
    assert Departments(rules + [rule]) == Departments(rules) + [rule.digisac];
    assert Versions(rules + [rule]) == Versions(rules) + [rule.version];
  }

  /** A new rule takes the next version of a department that has no active rule. */
  lemma AppendKept(db: Db, rule: Rule, t: Transition)
    requires Inv(db) && ActiveOf(db.rules, rule.digisac).None? && FreshKey(db.transitions, t.key)
    requires rule.version == LastVersion(db.rules, rule.digisac) + 1
    requires t.rule == |db.rules| && t.before == None && t.to == rule.state
    ensures var after := Db(db.rules + [rule], db.transitions + [t]); Inv(after) && Kept(db, after)
  {
    AppendRule(db.rules, rule);
    ChainAppend(db, db.rules + [rule], t);
    forall i | 0 <= i < |db.rules| && db.rules[i].digisac == rule.digisac ensures db.rules[i].state == Inactive {
      assert !(db.rules[i].digisac == rule.digisac && db.rules[i].state == Active);
    }
  }

  // ---- The transaction ------------------------------------------------------------------------------------------

  lemma {:induction false} LogKnowsState(ts: seq<Transition>, i: nat, rule: nat)
    requires i < |ts| && ts[i].rule == rule && ts[i].to == Inactive
    requires forall j :: 0 <= j < |ts| ==> ts[j].before == LoggedState(ts[..j], ts[j].rule)
    requires NeverReactivated(ts)
    ensures LoggedState(ts, rule) == Some(Inactive)
    decreases |ts|
  {
    var n := |ts| - 1;
    if i < n {
      var rest := ts[..n];
      forall j | 0 <= j < n ensures rest[j].before == LoggedState(rest[..j], rest[j].rule) {
        assert rest[..j] == ts[..j];
      }
      assert NeverReactivated(rest) by {
        forall j | 0 <= j < n && rest[j].to == Active ensures rest[j].before != Some(Inactive) { assert ts[j] == rest[j]; }
      }
      LogKnowsState(rest, i, rule);
      assert ts[..n] == rest && ts[n].before == LoggedState(ts[..n], ts[n].rule);
    }
  }

  /** The key of a replacement can be taken only by another change: a rule that was inactivated is not the
      active one. So the replacement is logged exactly when its key is free and short enough. */
  lemma ReplacementLogged(db: Db, o: Order, c: nat)
    requires Inv(db) && c < |db.rules| && db.rules[c].state == Active
    ensures var t := Replacement(o, c);
            AddTransition(db.transitions, t) ==
            if !FreshKey(db.transitions, t.key) then Err(Conflict)
            else if |t.key| > MAX_KEY then Err(ConstraintViolation)
            else Ok(db.transitions + [t])
  {
    var found := ByKey(db.transitions, Replacement(o, c).key);
    if found.Some? && db.transitions[found.value].rule == c && db.transitions[found.value].to == Inactive {
      LogKnowsState(db.transitions, found.value, c);
      assert false;
    }
  }

  /** The rule that a successful operation with a new key leaves. */
  ghost predicate Leaves(db: Db, rule: nat, o: Order, target: string) {
    && rule < |db.rules| && db.rules[rule].digisac == o.digisac && db.rules[rule].state == o.wanted
    && (o.wanted == Active ==> db.rules[rule].target == target)
  }

  lemma CreatedKept(db: Db, o: Order, target: string)
    requires Inv(db) && ActiveOf(db.rules, o.digisac).None? && FreshKey(db.transitions, o.key)
    ensures var done := Created(db.rules, db.transitions, o, target);
            && (done.Ok? <==> |o.key| <= MAX_KEY)
            && (done.Ok? ==> Inv(done.value.db) && Kept(db, done.value.db) && Leaves(done.value.db, done.value.rule, o, target))
  {
    hide Numbered, OnlyLastActive, KeysUnique, Chained, NeverReactivated, LastVersion;
    var rule := Rule(o.digisac, target, LastVersion(db.rules, o.digisac) + 1, o.wanted, o.reason, o.actor,
                     o.metadata, o.effective);
    AppendKept(db, rule, Transition(|db.rules|, None, o.wanted, o.reason, o.key, o.actor));
  }

  /** An activation must be loggable: a replacement needs a second key, which is longer. */
  ghost predicate Loggable(db: Db, o: Order, current: Option<nat>, target: string)
    requires current.Some? ==> current.value < |db.rules|
  {
    if o.wanted == Active && current.Some? && db.rules[current.value].target != target then
      |o.key + ":deactivate"| <= MAX_KEY && FreshKey(db.transitions, o.key + ":deactivate")
    else |o.key| <= MAX_KEY
  }

  lemma ReplacedKept(db: Db, o: Order, c: nat, target: string)
    requires Inv(db) && ActiveOf(db.rules, o.digisac) == Some(c) && FreshKey(db.transitions, o.key) && o.wanted == Active
    requires db.rules[c].target != target && Loggable(db, o, Some(c), target)
    ensures var done := Activated(db, o, Some(c), target);
            && done.Ok? && Inv(done.value.db) && Kept(db, done.value.db) && Leaves(done.value.db, done.value.rule, o, target)
  {
    var t := Replacement(o, c);
    ReplacementLogged(db, o, c);
    MoveKept(db, db.rules[c].(state := Inactive), t);
    var middle := Db(db.rules[c := db.rules[c].(state := Inactive)], db.transitions + [t]);
    NoOtherActive(db, o.digisac, c);
    FreshAfter(db.transitions, t, o.key);
    CreatedKept(middle, o, target);
    KeptThrough(db, middle, Activated(db, o, Some(c), target).value.db);
  }

  lemma NoOtherActive(db: Db, digisac: string, c: nat)
    requires OnlyLastActive(db.rules) && ActiveOf(db.rules, digisac) == Some(c)
    ensures ActiveOf(db.rules[c := db.rules[c].(state := Inactive)], digisac).None?
  {
    var rules := db.rules[c := db.rules[c].(state := Inactive)];
    forall i | 0 <= i < |rules| && rules[i].digisac == digisac ensures rules[i].state == Inactive {
      assert i != c ==> i < c || c < i;
    }
  }

  lemma FreshAfter(ts: seq<Transition>, t: Transition, key: string)
    requires FreshKey(ts, key) && t.key != key
    ensures FreshKey(ts + [t], key)
  {
    assert (ts + [t])[..|ts|] == ts;
  }

  lemma KeptThrough(a: Db, b: Db, c: Db)
    requires Kept(a, b) && Kept(b, c)
    ensures Kept(a, c)
  {
  }

  lemma ActivatedKept(db: Db, o: Order, target: string)
    requires Inv(db) && FreshKey(db.transitions, o.key) && o.wanted == Active
    ensures var current := ActiveOf(db.rules, o.digisac);
            var done := Activated(db, o, current, target);
            && (done.Ok? <==> Loggable(db, o, current, target))
            && (done.Ok? ==> Inv(done.value.db) && Kept(db, done.value.db) && Leaves(done.value.db, done.value.rule, o, target))
  {
    var current := ActiveOf(db.rules, o.digisac);
    if current.None? {
      CreatedKept(db, o, target);
    } else if db.rules[current.value].target == target {
      var c := current.value;
      MoveKept(db, db.rules[c], Transition(c, Some(Active), Active, o.reason, o.key, o.actor));
      assert db.rules[c := db.rules[c]] == db.rules;
    } else {
      ReplacementLogged(db, o, current.value);
      if Loggable(db, o, current, target) {
        ReplacedKept(db, o, current.value, target);
      }
    }
  }

  /** No active rule remains when the only one was inactivated, or the only new one is not active. */
  lemma NoneActive(db: Db, after: Db, digisac: string, rule: nat)
    requires OnlyLastActive(db.rules) && Kept(db, after) && |after.rules| <= |db.rules| + 1
    requires rule < |after.rules| && after.rules[rule].state == Inactive
    requires |after.rules| > |db.rules| ==> rule == |db.rules|
    requires ActiveOf(db.rules, digisac).Some? ==> rule == ActiveOf(db.rules, digisac).value
    ensures ActiveOf(after.rules, digisac).None?
  {
    forall i | 0 <= i < |after.rules| && after.rules[i].digisac == digisac ensures after.rules[i].state == Inactive {
      if i < |db.rules| && i != rule {
        assert db.rules[i].state == Inactive by {
          var current := ActiveOf(db.rules, digisac);
          if current.Some? {
            assert i < rule || rule < i;
          } else {
            assert !(db.rules[i].digisac == digisac && db.rules[i].state == Active);
          }
        }
      }
    }
  }

  lemma InactivatedKept(db: Db, o: Order, target: string)
    requires Inv(db) && FreshKey(db.transitions, o.key) && o.wanted == Inactive
    ensures var done := Inactivated(db, o, ActiveOf(db.rules, o.digisac), target);
            && (done.Ok? <==> |o.key| <= MAX_KEY)
            && (done.Ok? ==>
                  && Inv(done.value.db) && Kept(db, done.value.db) && Leaves(done.value.db, done.value.rule, o, target)
                  && ActiveOf(done.value.db.rules, o.digisac).None?)
  {
    var current := ActiveOf(db.rules, o.digisac);
    var done := Inactivated(db, o, current, target);
    if current.Some? {
      var c := current.value;
      MoveKept(db, db.rules[c].(state := Inactive, reason := o.reason, actor := o.actor, metadata := o.metadata),
               Transition(c, Some(Active), Inactive, o.reason, o.key, o.actor));
      if done.Ok? { NoneActive(db, done.value.db, o.digisac, c); }
    } else {
      var latest := LatestOf(db.rules, o.digisac);
      if latest.Some? {
        var r := latest.value;
        assert db.rules[r].state == Inactive;
        MoveKept(db, db.rules[r], Transition(r, Some(Inactive), Inactive, o.reason, o.key, o.actor));
        assert db.rules[r := db.rules[r]] == db.rules;
      } else {
        CreatedKept(db, o, target);
        if done.Ok? { NoneActive(db, done.value.db, o.digisac, |db.rules|); }
      }
    }
  }

  // ---- One operation --------------------------------------------------------------------------------------------

  /** A used operation key changes no table, whatever the rest of the call says. */
  lemma UsedKeyChangesNothing(db: Db, w: World, o: Order)
    requires Refers(db) && !FreshKey(db.transitions, o.key)
    ensures var done := Configured(db, w, o); done.Ok? ==> done.value.db == db
  {
  }

  /** What a new key needs: both departments, a target, no other active target in the way of an
      inactivation, and room in the log. */
  ghost predicate Acceptable(db: Db, w: World, o: Order) {
    var current := ActiveOf(db.rules, o.digisac);
    var target := TargetOf(db, o, current);
    && o.digisac in w.digisac && target.Some? && target.value in w.targets
    && (o.wanted == Inactive && current.Some? ==> target.value == db.rules[current.value].target)
    && Loggable(db, o, current, target.value)
  }

  /** An operation with a new key succeeds exactly when it is acceptable. It then keeps the invariant; a
      fresh activation leaves the requested target active, and a fresh inactivation leaves none active. */
  lemma FreshKeyTakesEffect(db: Db, w: World, o: Order)
    requires Inv(db) && FreshKey(db.transitions, o.key)
    ensures var done := Configured(db, w, o);
            && (done.Ok? <==> Acceptable(db, w, o))
            && (done.Ok? ==>
                  && Inv(done.value.db) && Kept(db, done.value.db)
                  && Leaves(done.value.db, done.value.rule, o, TargetOf(db, o, ActiveOf(db.rules, o.digisac)).value)
                  && (o.wanted == Inactive ==> ActiveOf(done.value.db.rules, o.digisac).None?))
  {
    hide Numbered, OnlyLastActive, KeysUnique, Chained, NeverReactivated, Refers;
    var target := TargetOf(db, o, ActiveOf(db.rules, o.digisac));
    if target.Some? {
      if o.wanted == Active { ActivatedKept(db, o, target.value); } else { InactivatedKept(db, o, target.value); }
    }
  }

  /** The rule that an operation adds: what was asked for, under the next version of its department. */
  ghost predicate NewRule(db: Db, rule: Rule, o: Order, target: string) {
    && rule.digisac == o.digisac && rule.target == target && rule.state == o.wanted && rule.reason == o.reason
    && rule.actor == o.actor && rule.metadata == o.metadata && rule.effective == o.effective
    && rule.version == multiset(Departments(db.rules))[o.digisac] + 1
  }

  /** The last transition is the operation's own, on the rule that it answers. */
  ghost predicate LoggedAs(t: Transition, rule: nat, before: Option<State>, o: Order) {
    t.rule == rule && t.before == before && t.to == o.wanted && t.reason == o.reason && t.key == o.key && t.actor == o.actor
  }

  ghost predicate Inactivates(before: Rule, after: Rule, o: Order) {
    && after.state == Inactive && after.reason == o.reason && after.actor == o.actor && after.metadata == o.metadata
    && after.digisac == before.digisac && after.target == before.target && after.version == before.version
    && after.effective == before.effective
  }

  /** What an operation with a new key writes. `c` is the active rule of the department, if there is one. */
  ghost predicate WrittenAs(db: Db, after: Db, rule: nat, o: Order, c: Option<nat>) {
    var n, m := |db.rules|, |db.transitions|;
    var target := if o.target.Some? then o.target else if c.Some? && c.value < n then Some(db.rules[c.value].target) else None;
    && target.Some? && (c.Some? ==> c.value < n) && |after.transitions| > m && after.transitions[..m] == db.transitions
    && if o.wanted == Active && c.Some? && db.rules[c.value].target == target.value then
         // Already mapped: only logged.
         && after.rules == db.rules && rule == c.value
         && |after.transitions| == m + 1 && LoggedAs(after.transitions[m], rule, Some(Active), o)
       else if o.wanted == Active && c.Some? then
         // The old rule loses its state, and is logged first.
         && |after.rules| == n + 1 && rule == n && NewRule(db, after.rules[n], o, target.value)
         && (forall i :: 0 <= i < n && i != c.value ==> after.rules[i] == db.rules[i])
         && after.rules[c.value] == db.rules[c.value].(state := Inactive)
         && |after.transitions| == m + 2 && LoggedAs(after.transitions[m + 1], n, None, o)
         && after.transitions[m] == Transition(c.value, Some(Active), Inactive, "mapping_replaced", o.key + ":deactivate", o.actor)
       else if c.Some? then
         // The inactivation is written on the active rule.
         && |after.rules| == n && rule == c.value
         && (forall i :: 0 <= i < n && i != c.value ==> after.rules[i] == db.rules[i])
         && Inactivates(db.rules[c.value], after.rules[c.value], o)
         && |after.transitions| == m + 1 && LoggedAs(after.transitions[m], rule, Some(Active), o)
       else if o.wanted == Inactive && exists i :: 0 <= i < n && db.rules[i].digisac == o.digisac then
         // Only logged, on the rule of the greatest version.
         && after.rules == db.rules && rule < n && db.rules[rule].digisac == o.digisac
         && (forall i :: 0 <= i < n && db.rules[i].digisac == o.digisac ==> db.rules[i].version <= db.rules[rule].version)
         && |after.transitions| == m + 1 && LoggedAs(after.transitions[m], rule, Some(Inactive), o)
       else
         && |after.rules| == n + 1 && after.rules[..n] == db.rules && rule == n && NewRule(db, after.rules[n], o, target.value)
         && |after.transitions| == m + 1 && LoggedAs(after.transitions[m], n, None, o)
  }

  /** The version that follows is one more than the number of the department's rules. */
  lemma NextVersion(rules: seq<Rule>, digisac: string)
    requires Numbered(Departments(rules), Versions(rules))
    ensures LastVersion(rules, digisac) == multiset(Departments(rules))[digisac]
  {
    var n, latest := LastVersion(rules, digisac), LatestOf(rules, digisac);
    if latest.Some? {
      assert Departments(rules)[latest.value] == digisac && Versions(rules)[latest.value] == n;
    }
    GreatestIsCount(Departments(rules), Versions(rules), digisac, n);
  }

  lemma CreatedWrites(db: Db, rules: seq<Rule>, ts: seq<Transition>, o: Order, target: string)
    requires Numbered(Departments(rules), Versions(rules)) && Departments(rules) == Departments(db.rules)
    requires FreshKey(ts, o.key) && Created(rules, ts, o, target).Ok?
    ensures var done := Created(rules, ts, o, target).value;
            && done.rule == |rules| && |done.db.rules| == |rules| + 1 && done.db.rules[..|rules|] == rules
            && NewRule(db, done.db.rules[|rules|], o, target)
            && |done.db.transitions| == |ts| + 1 && done.db.transitions[..|ts|] == ts
            && LoggedAs(done.db.transitions[|ts|], |rules|, None, o)
  {
    NextVersion(rules, o.digisac);
  }

  lemma ReplacementWrites(db: Db, o: Order, c: nat, target: string)
    requires Inv(db) && ActiveOf(db.rules, o.digisac) == Some(c) && FreshKey(db.transitions, o.key) && o.wanted == Active
    requires db.rules[c].target != target && o.target == Some(target) && Activated(db, o, Some(c), target).Ok?
    ensures var done := Activated(db, o, Some(c), target).value; WrittenAs(db, done.db, done.rule, o, Some(c))
  {
    hide Created, Inv, FreshKey, NewRule, Numbered, LastVersion;
    InvParts(db);
    ReplacementLogged(db, o, c);
    var rules, t := db.rules[c := db.rules[c].(state := Inactive)], Replacement(o, c);
    FreshAfter(db.transitions, t, o.key);
    assert Departments(rules) == Departments(db.rules) && Versions(rules) == Versions(db.rules);
    CreatedWrites(db, rules, db.transitions + [t], o, target);
    var done := Activated(db, o, Some(c), target).value;
    var m := |db.transitions|;
    assert done.db.transitions[..m] == done.db.transitions[..m + 1][..m];
    assert forall i :: 0 <= i < |rules| ==> done.db.rules[i] == done.db.rules[..|rules|][i];
    assert done.db.transitions[m] == done.db.transitions[..m + 1][m];
  }

  /** What a successful operation with a new key writes: the rules, the log and the answer, in each of its cases. */
  lemma FreshKeyWrites(db: Db, w: World, o: Order)
    requires Inv(db) && FreshKey(db.transitions, o.key) && Configured(db, w, o).Ok?
    ensures var done := Configured(db, w, o).value; WrittenAs(db, done.db, done.rule, o, ActiveOf(db.rules, o.digisac))
  {
    hide Created, Inv;
    InvParts(db);
    var current := ActiveOf(db.rules, o.digisac);
    var target := TargetOf(db, o, current).value;
    if o.wanted == Active && current.Some? && db.rules[current.value].target != target {
      ReplacementWrites(db, o, current.value, target);
    } else if current.None? && (o.wanted == Active || LatestOf(db.rules, o.digisac).None?) {
      CreatedWrites(db, db.rules, db.transitions, o, target);
    }
  }

  lemma InvParts(db: Db)
    requires Inv(db)
    ensures Refers(db) && Numbered(Departments(db.rules), Versions(db.rules))
  {
  }

  /** What refuses an operation with a new key, in order: an unknown department; an inactivation that names another
      target than the active one; no target; an unknown target; a replacement whose own key is taken; no room in the
      log for a key. */
  lemma RefusalMeaning(db: Db, w: World, o: Order)
    requires Inv(db) && FreshKey(db.transitions, o.key) && Configured(db, w, o).Err?
    ensures var current := ActiveOf(db.rules, o.digisac);
            var target := if o.target.Some? then o.target
                          else if current.Some? then Some(db.rules[current.value].target) else None;
            Configured(db, w, o).error ==
            if o.digisac !in w.digisac then NotFound
            else if o.wanted == Inactive && current.Some? && target != Some(db.rules[current.value].target) then Conflict
            else if target.None? then InvalidArgument
            else if target.value !in w.targets then NotFound
            else if && o.wanted == Active && current.Some? && target.value != db.rules[current.value].target
                    && !FreshKey(db.transitions, o.key + ":deactivate") then Conflict
            else ConstraintViolation
  {
    hide Inv;
    InvParts(db);
    var current := ActiveOf(db.rules, o.digisac);
    if current.Some? {
      ReplacementLogged(db, o, current.value);
      FreshAfter(db.transitions, Replacement(o, current.value), o.key);
    }
  }

  lemma ConfiguredKept(db: Db, w: World, o: Order)
    requires Inv(db)
    ensures var done := Configured(db, w, o); done.Ok? ==> Inv(done.value.db) && Kept(db, done.value.db)
  {
    if FreshKey(db.transitions, o.key) {
      FreshKeyTakesEffect(db, w, o);
    } else {
      UsedKeyChangesNothing(db, w, o);
    }
  }

  // ---- Runs --------------------------------------------------------------------------------------------------------

  /** A call in the world of its time: the other tables may change between calls. */
  datatype Call = Call(world: World, order: Order)

  const EMPTY := Db([], [])

  /** A refused call is rolled back. */
  function Apply(db: Db, c: Call): (after: Db)
    requires Refers(db)
  {
    var done := Configured(db, c.world, c.order);
    if done.Ok? then done.value.db else db
  }

  ghost function Run(db: Db, calls: seq<Call>): (after: Db)
    requires Inv(db)
    ensures Inv(after) && Kept(db, after)
  {
    if calls == [] then db
    else
      var before, last := Run(db, calls[..|calls| - 1]), calls[|calls| - 1];
      ConfiguredKept(before, last.world, last.order);
      Apply(before, last)
  }

  /** Over any run: the versions of a department are exactly 1 to n, at most one of its rules is active and
      it is version n, operation keys are unique, and each rule's transitions form a chain from none to its
      state. */
  lemma ReachableRules(calls: seq<Call>, digisac: string)
    ensures var db := Run(EMPTY, calls);
            && Exact(Departments(db.rules), Versions(db.rules), digisac)
            && (forall i :: 0 <= i < |db.rules| && db.rules[i].digisac == digisac && db.rules[i].state == Active ==>
                  db.rules[i].version == multiset(Departments(db.rules))[digisac])
            && KeysUnique(db.transitions) && Chained(db)
  {
    var db := Run(EMPTY, calls);
    NumberedExact(Departments(db.rules), Versions(db.rules), digisac);
    forall i | 0 <= i < |db.rules| && db.rules[i].digisac == digisac && db.rules[i].state == Active
      ensures db.rules[i].version == multiset(Departments(db.rules))[digisac]
    {
      LastHasCount(Departments(db.rules), Versions(db.rules), i);
    }
  }

  ghost predicate ActiveTarget(rules: seq<Rule>, digisac: string, target: string) {
    exists i :: 0 <= i < |rules| && rules[i].digisac == digisac && rules[i].target == target && rules[i].state == Active
  }

  lemma OrderTakesEffect(db: Db, w: World, o: Order)
    requires Inv(db) && o.wanted == Active && o.target.Some? && Configured(db, w, o).Ok?
    ensures ActiveTarget(Configured(db, w, o).value.db.rules, o.digisac, o.target.value) <==>
            FreshKey(db.transitions, o.key) || ActiveTarget(db.rules, o.digisac, o.target.value)
  {
    if FreshKey(db.transitions, o.key) {
      FreshKeyTakesEffect(db, w, o);
    } else {
      UsedKeyChangesNothing(db, w, o);
    }
  }

  /** The transition that the log has under a key, wherever it stands. */
  lemma KeyFound(ts: seq<Transition>, i: nat)
    requires i < |ts| && KeysUnique(ts)
    ensures ByKey(ts, ts[i].key) == Some(i)
  {
    assert ByKey(ts, ts[i].key).Some?;
  }
}
