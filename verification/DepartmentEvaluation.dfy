/** Evaluation of the department rules for a cycle: `_evaluate_department_mapping_sync` and
    `_persist_evaluation` of `src/core/department_mapping.py`. */
module DepartmentEvaluation {
  import opened Common
  import opened DepartmentMapping
  import opened DepartmentMappingSafety

  datatype Verdict = Resolved | Unresolved | Invalid

  /** The dictionary that the snapshot keeps with its verdict. */
  datatype Validation = Validation(
    assignment: Option<nat>, started: Option<int>, closed: Option<int>, identity: Option<nat>, link: Option<nat>,
    company: Option<nat>, departmentPresent: Option<bool>, rulePresent: bool, targetAvailable: bool,
    companyAvailable: bool, relationAvailable: bool)

  datatype Snapshot = Snapshot(
    cycle: nat, key: string, rule: Option<nat>, version: Option<nat>, digisac: Option<string>, target: Option<string>,
    company: Option<nat>, verdict: Verdict, reason: string, validation: Validation, evaluated: int)

  datatype Cycle = Cycle(conversation: string, started: Option<int>, closed: Option<int>)

  /** A row of `ticket_assignment_history`; its id is its index. */
  datatype Assignment = Assignment(conversation: string, department: Option<string>, time: int)

  datatype Identity = Identity(id: nat, confirmed: bool, link: Option<nat>, company: Option<nat>)

  datatype Flags = Flags(present: bool, active: Option<bool>)

  /** What the other tables say when the evaluation runs. */
  datatype World = World(
    cycles: map<nat, Cycle>, assignments: seq<Assignment>, departments: set<string>, identities: map<nat, Identity>,
    targets: map<string, Flags>, companies: map<nat, Flags>, relations: map<(nat, string), Flags>)

  predicate Available<K(==)>(rows: map<K, Flags>, k: K) { k in rows && rows[k].present && rows[k].active == Some(true) }

  // ---- The latest assignment ------------------------------------------------------------------------------

  predicate InBounds(a: Assignment, conversation: string, from: int, to: int) {
    a.conversation == conversation && a.department.Some? && from <= a.time <= to
  }

  /** ORDER BY event_timestamp DESC, id DESC LIMIT 1. */
  function Latest(rows: seq<Assignment>, conversation: string, from: int, to: int): (found: Option<nat>)
    ensures found.None? ==> forall i :: 0 <= i < |rows| ==> !InBounds(rows[i], conversation, from, to)
    ensures found.Some? ==>
              && found.value < |rows| && InBounds(rows[found.value], conversation, from, to)
              && forall i :: 0 <= i < |rows| && InBounds(rows[i], conversation, from, to) ==>
                   rows[i].time < rows[found.value].time || (rows[i].time == rows[found.value].time && i <= found.value)
  {
    if rows == [] then None
    else
      var found, last := Latest(rows[..|rows| - 1], conversation, from, to), rows[|rows| - 1];
      if InBounds(last, conversation, from, to) && (found.None? || rows[found.value].time <= last.time) then Some(|rows| - 1)
      else found
  }

  /** An assignment of the conversation to a department, neither before nor after the bounds. */
  ghost predicate Within(a: Assignment, conversation: string, from: int, to: int) {
    a.conversation == conversation && a.department != None && !(a.time < from) && !(to < a.time)
  }

  /** The latest of these, by time and then by id, or none when there is none. */
  lemma LatestMeaning(rows: seq<Assignment>, conversation: string, from: int, to: int)
    ensures var found := Latest(rows, conversation, from, to);
            && (found.None? <==> forall i :: 0 <= i < |rows| ==> !Within(rows[i], conversation, from, to))
            && (found.Some? ==>
                  && found.value < |rows| && Within(rows[found.value], conversation, from, to)
                  && forall i :: 0 <= i < |rows| && i != found.value && Within(rows[i], conversation, from, to) ==>
                       || rows[i].time < rows[found.value].time
                       || (rows[i].time == rows[found.value].time && i < found.value))
  {
    hide Latest;
    forall i | 0 <= i < |rows| ensures InBounds(rows[i], conversation, from, to) <==> Within(rows[i], conversation, from, to) {}
  }

  // ---- The verdict ------------------------------------------------------------------------------------------

  predicate Bounded(c: Cycle) { c.started.Some? && c.closed.Some? && c.started.value <= c.closed.value }

  function AssignmentOf(w: World, c: Cycle): Option<nat>
    requires Bounded(c)
  {
    Latest(w.assignments, c.conversation, c.started.value, c.closed.value)
  }

  predicate Confirmed(w: World, cycle: nat) {
    cycle in w.identities && var i := w.identities[cycle]; i.confirmed && i.link.Some? && i.company.Some?
  }

  function Bare(c: Cycle): Validation {
    Validation(None, c.started, c.closed, None, None, None, None, false, false, false, false)
  }

  /** The snapshot that an evaluation would append. */
  function Judge(rules: seq<Rule>, w: World, cycle: nat, key: string, at: int): Snapshot
    requires cycle in w.cycles
  {
    var c := w.cycles[cycle];
    if !Bounded(c) then
      Snapshot(cycle, key, None, None, None, None, None, Unresolved, "cycle_boundary_insufficient", Bare(c), at)
    else
      var assignment := AssignmentOf(w, c);
      if assignment.None? then
        Snapshot(cycle, key, None, None, None, None, None, Unresolved, "current_department_missing", Bare(c), at)
      else
        var digisac := w.assignments[assignment.value].department.value;
        var v := Bare(c).(assignment := assignment, departmentPresent := Some(digisac in w.departments));
        if digisac !in w.departments then
          Snapshot(cycle, key, None, None, Some(digisac), None, None, Invalid, "digisac_department_unavailable", v, at)
        else
          var v := if cycle in w.identities
                   then v.(identity := Some(w.identities[cycle].id), link := w.identities[cycle].link) else v;
          if !Confirmed(w, cycle) then
            Snapshot(cycle, key, None, None, Some(digisac), None, None, Unresolved, "identity_not_confirmed", v, at)
          else
            var company := w.identities[cycle].company.value;
            JudgeRule(rules, w, cycle, key, at, digisac, company, v.(company := Some(company)))
  }

  function JudgeRule(rules: seq<Rule>, w: World, cycle: nat, key: string, at: int, digisac: string, company: nat,
                     v: Validation): Snapshot
  {
    var rule := ActiveOf(rules, digisac);
    if rule.None? then
      Snapshot(cycle, key, None, None, Some(digisac), None, Some(company), Unresolved, "mapping_rule_missing", v, at)
    else
      var target := rules[rule.value].target;
      var v := v.(rulePresent := true, targetAvailable := Available(w.targets, target),
                  companyAvailable := Available(w.companies, company),
                  relationAvailable := Available(w.relations, (company, target)));
      var (verdict, reason) :=
        if !v.targetAvailable then (Invalid, "acessorias_department_unavailable")
        else if !v.companyAvailable then (Invalid, "company_unavailable")
        else if !v.relationAvailable then (Invalid, "company_department_unavailable")
        else (Resolved, "mapping_validated");
      Snapshot(cycle, key, rule, Some(rules[rule.value].version), Some(digisac), Some(target), Some(company),
               verdict, reason, v, at)
  }

  // ---- The append-only table ------------------------------------------------------------------------------------

  function ByCycleKey(rows: seq<Snapshot>, cycle: nat, key: string): (found: Option<nat>)
    ensures found.Some? ==> found.value < |rows| && rows[found.value].cycle == cycle && rows[found.value].key == key
    ensures found.None? ==> forall i :: 0 <= i < |rows| ==> !(rows[i].cycle == cycle && rows[i].key == key)
  {
    if rows == [] then None
    else
      var found, last := ByCycleKey(rows[..|rows| - 1], cycle, key), rows[|rows| - 1];
      if found.None? && last.cycle == cycle && last.key == key then Some(|rows| - 1) else found
  }

  /** The first snapshot of a cycle. */
  function FirstOf(rows: seq<Snapshot>, cycle: nat): (found: Option<nat>)
    ensures found.Some? ==>
              && found.value < |rows| && rows[found.value].cycle == cycle
              && forall i :: 0 <= i < found.value ==> rows[i].cycle != cycle
    ensures found.None? ==> forall i :: 0 <= i < |rows| ==> rows[i].cycle != cycle
  {
    if rows == [] then None
    else
      var found, last := FirstOf(rows[..|rows| - 1], cycle), rows[|rows| - 1];
      if found.None? && last.cycle == cycle then Some(|rows| - 1) else found
  }

  const DEFAULT_KEY := "default"

  /** The snapshot that an evaluation finds instead of making one. */
  function Existing(rows: seq<Snapshot>, cycle: nat, key: string): (found: Option<nat>)
    ensures found.Some? ==> found.value < |rows|
  {
    var exact := ByCycleKey(rows, cycle, key);
    if exact.Some? || key != DEFAULT_KEY then exact else FirstOf(rows, cycle)
  }

  /** `_evaluate_department_mapping_sync`: the table that it leaves and the index of its answer. */
  function Evaluated(rows: seq<Snapshot>, rules: seq<Rule>, w: World, cycle: nat, key: string, at: int)
    : (r: Result<(seq<Snapshot>, nat), Error>)
    ensures r.Ok? ==> r.value.1 < |r.value.0|
  {
    if cycle !in w.cycles then Err(NotFound)
    else
      var existing := Existing(rows, cycle, key);
      if existing.Some? then Ok((rows, existing.value))
      else Ok((rows + [Judge(rules, w, cycle, key, at)], |rows|))
  }

  /** An unknown cycle is refused. A snapshot with the key is answered, or any first one under the default key;
      otherwise one is appended. */
  lemma EvaluatedMeaning(rows: seq<Snapshot>, rules: seq<Rule>, w: World, cycle: nat, key: string, at: int)
    ensures var done := Evaluated(rows, rules, w, cycle, key, at);
            var answers := exists i :: 0 <= i < |rows| && rows[i].cycle == cycle && (rows[i].key == key || key == "default");
            && (cycle !in w.cycles ==> done == Err(NotFound))
            && (cycle in w.cycles && answers ==>
                  done.Ok? && done.value.0 == rows && rows[done.value.1].cycle == cycle
                  && (rows[done.value.1].key == key || key == "default"))
            && (cycle in w.cycles && !answers ==>
                  done.Ok? && done.value.0 == rows + [Judge(rules, w, cycle, key, at)] && done.value.1 == |rows|)
  {
    hide Judge;
  }

  class EvaluationStore {
    var rows: seq<Snapshot>

    constructor ()
      ensures rows == []
    {
      rows := [];
    }

    /** `_evaluate_department_mapping_sync`. The validation dictionary is filled as the checks pass. */
    method Evaluate(rules: seq<Rule>, w: World, cycle: nat, key: Option<string>, at: int) returns (result: Result<nat, Error>)
      modifies this
      ensures SafeOptional(key, MAX_KEY).Err? ==> result == Err(InvalidArgument) && rows == old(rows)
      ensures SafeOptional(key, MAX_KEY).Ok? ==>
                var safe := SafeOptional(key, MAX_KEY).value;
                var done := Evaluated(old(rows), rules, w, cycle, if safe.Some? then safe.value else DEFAULT_KEY, at);
                && (done.Ok? ==> rows == done.value.0 && result == Ok(done.value.1))
                && (done.Err? ==> rows == old(rows) && result == Err(done.error))
    {
      var safe := SafeOptional(key, MAX_KEY);
      if safe.Err? {
        return Err(InvalidArgument);
      }
      var k := if safe.value.Some? then safe.value.value else DEFAULT_KEY;
      if cycle !in w.cycles {
        return Err(NotFound);
      }
      var existing := Existing(rows, cycle, k);
      if existing.Some? {
        return Ok(existing.value);
      }
      var row := MakeSnapshot(rules, w, cycle, k, at);
      rows := rows + [row];
      result := Ok(|rows| - 1);
    }
  }

  method MakeSnapshot(rules: seq<Rule>, w: World, cycle: nat, key: string, at: int) returns (row: Snapshot)
    requires cycle in w.cycles
    ensures row == Judge(rules, w, cycle, key, at)
  {
    var c := w.cycles[cycle];
    var v := Bare(c);
    row := Snapshot(cycle, key, None, None, None, None, None, Unresolved, "cycle_boundary_insufficient", v, at);
    if !Bounded(c) {
      return;
    }
    var assignment := AssignmentOf(w, c);
    v := v.(assignment := assignment);
    if assignment.None? {
      return row.(reason := "current_department_missing", validation := v);
    }
    var digisac := w.assignments[assignment.value].department.value;
    row := row.(digisac := Some(digisac));
    v := v.(departmentPresent := Some(digisac in w.departments));
    if digisac !in w.departments {
      return row.(verdict := Invalid, reason := "digisac_department_unavailable", validation := v);
    }
    if cycle in w.identities {
      v := v.(identity := Some(w.identities[cycle].id), link := w.identities[cycle].link);
    }
    if !Confirmed(w, cycle) {
      return row.(reason := "identity_not_confirmed", validation := v);
    }
    var company := w.identities[cycle].company.value;
    v := v.(company := Some(company));
    row := row.(company := Some(company));
    var rule := ActiveOf(rules, digisac);
    if rule.None? {
      return row.(reason := "mapping_rule_missing", validation := v);
    }
    var target := rules[rule.value].target;
    v := v.(rulePresent := true, targetAvailable := Available(w.targets, target),
            companyAvailable := Available(w.companies, company), relationAvailable := Available(w.relations, (company, target)));
    row := row.(rule := rule, version := Some(rules[rule.value].version), target := Some(target), validation := v);
    if !v.targetAvailable {
      row := row.(verdict := Invalid, reason := "acessorias_department_unavailable");
    } else if !v.companyAvailable {
      row := row.(verdict := Invalid, reason := "company_unavailable");
    } else if !v.relationAvailable {
      row := row.(verdict := Invalid, reason := "company_department_unavailable");
    } else {
      row := row.(verdict := Resolved, reason := "mapping_validated");
    }
  }

  // ---- What a resolved snapshot rests on ----------------------------------------------------------------------------

  /** Assignment `a` is the latest one within the bounds of the cycle, by time and then by id. */
  ghost predicate IsLatest(w: World, c: Cycle, a: nat)
    requires Bounded(c)
  {
    && a < |w.assignments| && InBounds(w.assignments[a], c.conversation, c.started.value, c.closed.value)
    && forall i :: 0 <= i < |w.assignments| && InBounds(w.assignments[i], c.conversation, c.started.value, c.closed.value) ==>
         w.assignments[i].time < w.assignments[a].time || (w.assignments[i].time == w.assignments[a].time && i <= a)
  }

  /** Everything that a resolution needs, for assignment `a` and rule `r`. */
  ghost predicate RestsOn(rules: seq<Rule>, w: World, cycle: nat, a: nat, r: nat) {
    && cycle in w.cycles && Bounded(w.cycles[cycle]) && IsLatest(w, w.cycles[cycle], a)
    && Confirmed(w, cycle) && r < |rules| && rules[r].state == Active
    && w.assignments[a].department == Some(rules[r].digisac) && rules[r].digisac in w.departments
    && Available(w.targets, rules[r].target)
    && Available(w.companies, w.identities[cycle].company.value)
    && Available(w.relations, (w.identities[cycle].company.value, rules[r].target))
  }

  ghost predicate Resolvable(rules: seq<Rule>, w: World, cycle: nat) {
    exists a, r :: RestsOn(rules, w, cycle, a, r)
  }

  /** A snapshot is resolved exactly when the cycle has bounds, a latest assignment to a known department, a
      confirmed company, an active rule, and a target, a company and a relation that are all present and
      active; and then it names the rule, its version, its target and the company. */
  lemma ResolvedExactly(rules: seq<Rule>, w: World, cycle: nat, key: string, at: int)
    requires cycle in w.cycles && OnlyLastActive(rules)
    ensures var s := Judge(rules, w, cycle, key, at);
            && (s.verdict == Resolved <==> Resolvable(rules, w, cycle))
            && (s.verdict == Resolved ==>
                  && s.validation.assignment.Some? && s.rule.Some?
                  && RestsOn(rules, w, cycle, s.validation.assignment.value, s.rule.value)
                  && s.version == Some(rules[s.rule.value].version) && s.target == Some(rules[s.rule.value].target)
                  && s.digisac == Some(rules[s.rule.value].digisac) && s.company == w.identities[cycle].company)
  {
    var s := Judge(rules, w, cycle, key, at);
    if s.verdict == Resolved {
      assert RestsOn(rules, w, cycle, s.validation.assignment.value, s.rule.value);
    }
    if a, r :| RestsOn(rules, w, cycle, a, r) {
      SameAssignment(w, w.cycles[cycle], a);
      SameRule(rules, r);
    }
  }

  lemma SameAssignment(w: World, c: Cycle, a: nat)
    requires Bounded(c) && IsLatest(w, c, a)
    ensures AssignmentOf(w, c) == Some(a)
  {
  }

  lemma SameRule(rules: seq<Rule>, r: nat)
    requires OnlyLastActive(rules) && r < |rules| && rules[r].state == Active
    ensures ActiveOf(rules, rules[r].digisac) == Some(r)
  {
    var found := ActiveOf(rules, rules[r].digisac);
    assert found.Some?;
  }

  predicate IsLive<K(==)>(rows: map<K, Flags>, k: K) { k in rows && rows[k] == Flags(true, Some(true)) }

  /** The company of a confirmed identity with a link. */
  function ConfirmedCompany(w: World, cycle: nat): Option<nat> {
    if cycle in w.identities && w.identities[cycle].confirmed && w.identities[cycle].link.Some?
    then w.identities[cycle].company else None
  }

  /** What an evaluation finds: the latest assignment within the bounds, its department and whether that is known,
      the company of a known one, the active rule of both, and its target. What comes after a gap is not looked for. */
  datatype Found = Found(assignment: Option<nat>, department: Option<string>, known: bool, company: Option<nat>,
                         rule: Option<nat>, target: Option<string>)

  predicate HasBounds(c: Cycle) { c.started.Some? && c.closed.Some? && c.started.value <= c.closed.value }

  function Find(rules: seq<Rule>, w: World, cycle: nat): (f: Found)
    requires cycle in w.cycles
    ensures f.company.Some? ==> f.known && f.department.Some?
    ensures f.rule.Some? ==> f.rule.value < |rules| && f.target == Some(rules[f.rule.value].target) && f.company.Some?
    ensures f.rule.None? ==> f.target.None?
  {
    var c := w.cycles[cycle];
    var a := if HasBounds(c) then Latest(w.assignments, c.conversation, c.started.value, c.closed.value) else None;
    var d := if a.Some? then w.assignments[a.value].department else None;
    var known := d.Some? && d.value in w.departments;
    var company := if known then ConfirmedCompany(w, cycle) else None;
    var r := if company.Some? then ActiveOf(rules, d.value) else None;
    Found(a, d, known, company, r, if r.Some? then Some(rules[r.value].target) else None)
  }

  /** The verdict and the reason of the first check that fails. */
  function Finding(f: Found, w: World, bounded: bool): (Verdict, string)
    requires f.rule.Some? ==> f.target.Some? && f.company.Some?
  {
    if !bounded then (Unresolved, "cycle_boundary_insufficient")
    else if f.assignment.None? then (Unresolved, "current_department_missing")
    else if !f.known then (Invalid, "digisac_department_unavailable")
    else if f.company.None? then (Unresolved, "identity_not_confirmed")
    else if f.rule.None? then (Unresolved, "mapping_rule_missing")
    else if !IsLive(w.targets, f.target.value) then (Invalid, "acessorias_department_unavailable")
    else if !IsLive(w.companies, f.company.value) then (Invalid, "company_unavailable")
    else if !IsLive(w.relations, (f.company.value, f.target.value)) then (Invalid, "company_department_unavailable")
    else (Resolved, "mapping_validated")
  }

  /** The dictionary that goes with it. */
  function Filled(f: Found, w: World, cycle: nat): Validation
    requires cycle in w.cycles && (f.rule.Some? ==> f.target.Some? && f.company.Some?)
  {
    var identified := f.known && cycle in w.identities;
    Validation(f.assignment, w.cycles[cycle].started, w.cycles[cycle].closed,
               if identified then Some(w.identities[cycle].id) else None,
               if identified then w.identities[cycle].link else None,
               f.company, if f.department.Some? then Some(f.known) else None, f.rule.Some?,
               f.rule.Some? && IsLive(w.targets, f.target.value), f.rule.Some? && IsLive(w.companies, f.company.value),
               f.rule.Some? && IsLive(w.relations, (f.company.value, f.target.value)))
  }

  /** A snapshot says what was found, and the first check that failed; nothing after that check is filled in. */
  lemma JudgeMeaning(rules: seq<Rule>, w: World, cycle: nat, key: string, at: int)
    requires cycle in w.cycles
    ensures var s, f := Judge(rules, w, cycle, key, at), Find(rules, w, cycle);
            && s.cycle == cycle && s.key == key && s.evaluated == at
            && s.digisac == f.department && s.company == f.company && s.rule == f.rule && s.target == f.target
            && s.version == (if f.rule.Some? then Some(rules[f.rule.value].version) else None)
            && (s.verdict, s.reason) == Finding(f, w, HasBounds(w.cycles[cycle]))
            && s.validation == Filled(f, w, cycle)
  {
    hide Latest, ActiveOf;
  }

  // ---- Immutability and stability ------------------------------------------------------------------------------------

  /** At most one snapshot per cycle and key, and a default snapshot is the first of its cycle. */
  ghost predicate Inv(rows: seq<Snapshot>) {
    && (forall i, j :: 0 <= i < j < |rows| && rows[i].cycle == rows[j].cycle ==> rows[i].key != rows[j].key)
    && (forall i, j :: 0 <= i < j < |rows| && rows[i].cycle == rows[j].cycle ==> rows[j].key != DEFAULT_KEY)
  }

  /** One evaluation: the rules and the other tables are whatever they are at that time. */
  datatype Call = Call(rules: seq<Rule>, world: World, cycle: nat, key: string, at: int)

  function Apply(rows: seq<Snapshot>, c: Call): seq<Snapshot> {
    var done := Evaluated(rows, c.rules, c.world, c.cycle, c.key, c.at);
    if done.Ok? then done.value.0 else rows
  }

  function Run(rows: seq<Snapshot>, calls: seq<Call>): seq<Snapshot> {
    if calls == [] then rows else Apply(Run(rows, calls[..|calls| - 1]), calls[|calls| - 1])
  }

  lemma ApplyKept(rows: seq<Snapshot>, c: Call)
    requires Inv(rows)
    ensures Inv(Apply(rows, c)) && rows <= Apply(rows, c)
  {
  }

  /** Whatever happens to the rules and the directory: no snapshot is changed or lost, and there is at most
      one per cycle and key. */
  lemma {:induction false} RunKept(rows: seq<Snapshot>, calls: seq<Call>)
    requires Inv(rows)
    ensures Inv(Run(rows, calls)) && rows <= Run(rows, calls)
  {
    if calls != [] {
      RunKept(rows, calls[..|calls| - 1]);
      ApplyKept(Run(rows, calls[..|calls| - 1]), calls[|calls| - 1]);
    }
  }

  /** Once a cycle has a snapshot, the default evaluation answers the first one of all, then and ever after;
      and an evaluation with a key answers the snapshot that has it. */
  lemma AnswersAreStable(rows: seq<Snapshot>, calls: seq<Call>, c: Call, i: nat)
    requires Inv(rows) && i < |rows| && rows[i].cycle == c.cycle && c.cycle in c.world.cycles
    requires rows[i].key == c.key || (c.key == DEFAULT_KEY && FirstOf(rows, c.cycle) == Some(i))
    ensures var later := Run(rows, calls);
            && Evaluated(later, c.rules, c.world, c.cycle, c.key, c.at) == Ok((later, i))
            && later[i] == rows[i]
  {
    var later := Run(rows, calls);
    RunKept(rows, calls);
    assert later[i] == rows[i];
    var exact := ByCycleKey(later, c.cycle, c.key);
    var first := FirstOf(later, c.cycle);
    assert first.Some?;
    if rows[i].key != c.key {
      assert forall j :: 0 <= j < i ==> later[j] == rows[j];
      assert first.value == i;
    }
  }
}
