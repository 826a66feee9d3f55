/** The department evaluation and the Request operation put together: which snapshot of a cycle the operation
    reads (`_mapping_snapshot` of `src/core/acessorias_requests.py`), and which cycles ever have one. */
module RequestMapping {
  import opened Common
  import opened DepartmentMapping
  import opened E = DepartmentEvaluation
  import R = RequestOperations

  // ---- The snapshot that the operation reads --------------------------------------------------------------

  /** Only the default snapshot is read. There is at most one per cycle. */
  function MappingOf(rows: seq<Snapshot>, cycle: nat): Option<R.MappingFacts> {
    var found := ByCycleKey(rows, cycle, DEFAULT_KEY);
    if found.None? then None
    else
      var row := rows[found.value];
      Some(R.MappingFacts(found.value, row.verdict == Resolved, Some(row.reason),
                          if row.company.Some? then Some(row.company.value) else None, row.target))
  }

  /** What the operation reads: the company and the target of the default snapshot, resolved exactly when it is, with
      its reason. */
  lemma MappingMeaning(rows: seq<Snapshot>, cycle: nat)
    ensures var m := MappingOf(rows, cycle);
            && (m.Some? <==> exists i :: 0 <= i < |rows| && rows[i].cycle == cycle && rows[i].key == DEFAULT_KEY)
            && (m.Some? ==>
                  && m.value.id < |rows| && var row := rows[m.value.id];
                     && row.cycle == cycle && row.key == DEFAULT_KEY
                     && (m.value.resolved <==> row.verdict == Resolved) && m.value.reason == Some(row.reason)
                     && m.value.department == row.target && m.value.companyId.Some? == row.company.Some?
                     && (row.company.Some? ==> m.value.companyId == Some(row.company.value as int)))
  {
  }

  /** The call makes or finds a snapshot of the cycle. */
  predicate Evaluates(c: Call, cycle: nat) { c.cycle == cycle && cycle in c.world.cycles }

  ghost predicate FirstEvaluation(calls: seq<Call>, cycle: nat, m: nat) {
    && m < |calls| && Evaluates(calls[m], cycle)
    && forall j :: 0 <= j < m ==> !Evaluates(calls[j], cycle)
  }

  /** The key of the first snapshot of a cycle, over the calls so far. */
  function FirstKey(calls: seq<Call>, cycle: nat): Option<string> {
    if calls == [] then None
    else
      var key, last := FirstKey(calls[..|calls| - 1], cycle), calls[|calls| - 1];
      if key.None? && Evaluates(last, cycle) then Some(last.key) else key
  }

  lemma {:induction false} FirstKeyMeaning(calls: seq<Call>, cycle: nat, m: nat)
    ensures FirstEvaluation(calls, cycle, m) ==> FirstKey(calls, cycle) == Some(calls[m].key)
    ensures FirstKey(calls, cycle).None? ==> forall j :: 0 <= j < |calls| ==> !Evaluates(calls[j], cycle)
  {
    if calls != [] {
      var n := |calls| - 1;
      FirstKeyMeaning(calls[..n], cycle, if m < n then m else 0);
      assert FirstEvaluation(calls, cycle, m) && m < n ==> FirstEvaluation(calls[..n], cycle, m);
      if FirstEvaluation(calls, cycle, m) && m == n { NoFirstKey(calls[..n], cycle); }
    }
  }

  lemma {:induction false} NoFirstKey(calls: seq<Call>, cycle: nat)
    requires forall j :: 0 <= j < |calls| ==> !Evaluates(calls[j], cycle)
    ensures FirstKey(calls, cycle).None?
  {
    if calls != [] { NoFirstKey(calls[..|calls| - 1], cycle); }
  }

  /** The key of a cycle's first row. */
  function StoredKey(rows: seq<Snapshot>, cycle: nat): Option<string> {
    var first := FirstOf(rows, cycle);
    if first.Some? then Some(rows[first.value].key) else None
  }

  lemma StoredKeyStep(rows: seq<Snapshot>, c: Call, cycle: nat)
    requires Inv(rows)
    ensures StoredKey(Apply(rows, c), cycle) ==
            if StoredKey(rows, cycle).None? && Evaluates(c, cycle) then Some(c.key) else StoredKey(rows, cycle)
  {
    var after := Apply(rows, c);
    if |after| > |rows| { assert after[..|rows|] == rows; }
  }

  lemma {:induction false} StoredKeyIsFirst(calls: seq<Call>, cycle: nat)
    ensures StoredKey(Run([], calls), cycle) == FirstKey(calls, cycle)
  {
    if calls != [] {
      var n := |calls| - 1;
      StoredKeyIsFirst(calls[..n], cycle);
      E.RunKept([], calls[..n]);
      StoredKeyStep(Run([], calls[..n]), calls[n], cycle);
    }
  }

  /** A default snapshot is there exactly when it is the first one of its cycle. */
  lemma DefaultIsFirst(rows: seq<Snapshot>, cycle: nat)
    requires Inv(rows)
    ensures MappingOf(rows, cycle).Some? <==> StoredKey(rows, cycle) == Some(DEFAULT_KEY)
  {
    var found, first := ByCycleKey(rows, cycle, DEFAULT_KEY), FirstOf(rows, cycle);
    assert found.Some? ==> first.Some? && first.value <= found.value;
  }

  /** Over any run of evaluations: a cycle has the snapshot that its Request operation reads if and only if its
      first evaluation used the default key, however often it is evaluated afterwards. */
  lemma ReadableExactly(calls: seq<Call>, cycle: nat, m: nat)
    requires FirstEvaluation(calls, cycle, m)
    ensures MappingOf(Run([], calls), cycle).Some? <==> calls[m].key == DEFAULT_KEY
  {
    E.RunKept([], calls);
    DefaultIsFirst(Run([], calls), cycle);
    StoredKeyIsFirst(calls, cycle);
    FirstKeyMeaning(calls, cycle, m);
  }

  // ---- What this means for the operation ---------------------------------------------------------------------

  /** Everything that eligibility asks before it looks at the mapping. */
  predicate ReadyButForMapping(facts: R.CycleFacts) {
    && facts.status in {"completed", "completed_with_warnings"} && facts.classified
    && R.EvaluateConfidence(facts.confidence) == R.Allowed
    && facts.title.Some? && Strip(facts.title.value) != "" && facts.description.Some?
  }

  /** A cycle whose first snapshot has another key is missing its mapping forever: after any further evaluations,
      with the default key too, it is not eligible, whatever the directory says, and its row is never reopened. */
  lemma MissingForever(rows: seq<Snapshot>, calls: seq<Call>, cycle: nat, facts: R.CycleFacts, directory: R.DirectoryFacts)
    requires Inv(rows) && StoredKey(rows, cycle).Some? && StoredKey(rows, cycle) != Some(DEFAULT_KEY)
    ensures var e := R.OperationState(facts, MappingOf(Run(rows, calls), cycle), directory);
            && e.Refused? && (ReadyButForMapping(facts) ==> e.reason == "mapping_missing")
            && forall op, owner :: R.Reopen(op, owner, e) == (op, false)
  {
    StoredKeyLasts(rows, calls, cycle);
    E.RunKept(rows, calls);
    DefaultIsFirst(Run(rows, calls), cycle);
  }

  lemma StoredKeyLasts(rows: seq<Snapshot>, calls: seq<Call>, cycle: nat)
    requires Inv(rows) && StoredKey(rows, cycle).Some?
    ensures StoredKey(Run(rows, calls), cycle) == StoredKey(rows, cycle)
  {
    E.RunKept(rows, calls);
    var later, i := Run(rows, calls), FirstOf(rows, cycle).value;
    assert later[i] == rows[i] && forall j :: 0 <= j < i ==> later[j] == rows[j];
    assert FirstOf(later, cycle).Some?;
  }

  /** And yet the default evaluation answers that first snapshot. When it is resolved, the evaluation reports a
      mapping that the operation does not find, exactly when it has another key. */
  lemma ResolvedButMissing(rows: seq<Snapshot>, calls: seq<Call>, c: Call, directory: R.DirectoryFacts, facts: R.CycleFacts)
    requires Inv(rows) && c.key == DEFAULT_KEY && Evaluates(c, c.cycle) && ReadyButForMapping(facts)
    requires StoredKey(rows, c.cycle).Some? && rows[FirstOf(rows, c.cycle).value].verdict == Resolved
    ensures var now, first := Run(rows, calls), FirstOf(rows, c.cycle).value;
            && first < |now|
            && Evaluated(now, c.rules, c.world, c.cycle, c.key, c.at) == Ok((now, first)) && now[first] == rows[first]
            && (R.OperationState(facts, MappingOf(now, c.cycle), directory) == R.Refused("mapping_missing") <==>
                rows[first].key != DEFAULT_KEY)
  {
    E.RunKept(rows, calls);
    E.AnswersAreStable(rows, calls, c, FirstOf(rows, c.cycle).value);
    StoredKeyLasts(rows, calls, c.cycle);
    DefaultIsFirst(Run(rows, calls), c.cycle);
    if rows[FirstOf(rows, c.cycle).value].key == DEFAULT_KEY {
      DefaultIsFirst(rows, c.cycle);
      MappingIsFixed(rows, calls, c.cycle);
    }
  }

  /** A default snapshot is never replaced, so what it says decides for good. */
  lemma MappingIsFixed(rows: seq<Snapshot>, calls: seq<Call>, cycle: nat)
    requires Inv(rows) && MappingOf(rows, cycle).Some?
    ensures MappingOf(Run(rows, calls), cycle) == MappingOf(rows, cycle)
  {
    E.RunKept(rows, calls);
    var later, i := Run(rows, calls), ByCycleKey(rows, cycle, DEFAULT_KEY).value;
    assert later[i] == rows[i];
    assert ByCycleKey(later, cycle, DEFAULT_KEY).Some?;
  }
}
