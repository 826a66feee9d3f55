/** The durable Request operation: `src/core/acessorias_requests.py`.

    One row per cycle, and one audit row per manual reconciliation key. Every transaction is a
    function on the row; `RequestStore` performs it in place. The row of a cycle is named by the
    cycle's id. */
module RequestOperations {
  import opened Common
  import opened RequestProvider

  /** A persisted confidence. Invalid stands for a missing value, a boolean, a value that is not a
      number, NaN and the infinities. */
  datatype Confidence = Invalid | Score(value: real)

  datatype Gate = Allowed | BelowThreshold | InvalidConfidence

  function EvaluateConfidence(c: Confidence): Gate {
    if c.Invalid? || c.value < 0.0 || c.value > 1.0 then InvalidConfidence
    else if c.value < 0.5 then BelowThreshold
    else Allowed
  }

  function GateReason(g: Gate): string {
    match g
    case Allowed => "confidence_accepted"
    case BelowThreshold => "confidence_below_threshold"
    case InvalidConfidence => "confidence_invalid"
  }

  // ---- Eligibility -------------------------------------------------------------------------

  datatype Payload = Payload(subject: string, company: string, department: string, description: string)

  /** What the cycle and its classification say. */
  datatype CycleFacts = CycleFacts(
    status: string, classified: bool, confidence: Confidence,
    title: Option<string>, description: Option<string>, protocol: Option<string>)

  /** The default mapping snapshot of the cycle. */
  datatype MappingFacts = MappingFacts(
    id: nat, resolved: bool, reason: Option<string>, companyId: Option<int>, department: Option<string>)

  /** The available company's external id, and whether an available relation to the department exists. */
  datatype DirectoryFacts = DirectoryFacts(company: Option<string>, related: bool)

  datatype RequestFacts = RequestFacts(companyId: int, company: string, mappingId: nat, department: string)

  datatype Eligibility =
    | Ready(facts: RequestFacts, payload: Payload)
    | Refused(reason: string)

  predicate IsDigit(c: char) { '0' <= c <= '9' }

  function Take(s: string, n: nat): string { if |s| <= n then s else s[..n] }

  /** `build_request_payload`; an error carries the failure category that `_operation_state` derives
      from the message. A bad company identifier is reported as a missing title. */
  function BuildPayload(title: string, description: string, protocol: Option<string>,
                        company: string, department: string): Result<Payload, string>
  {
    if Strip(title) == "" then Err("classification_title_missing")
    else
      var prefix := if protocol.Some? then Strip(protocol.value) else "";
      var subject := if prefix == "" then Strip(title) else "[" + prefix + "] - " + Strip(title);
      var companyId := Strip(company);
      if companyId == "" || exists i :: 0 <= i < |companyId| && IsSpace(companyId[i]) then
        Err("classification_title_missing")
      else if !Matches(Strip(department), IsDigit, |Strip(department)|) then
        Err("department_identifier_invalid")
      else Ok(Payload(Take(subject, 100), companyId, Strip(department), description))
  }

  /** `_operation_state`. */
  function OperationState(cycle: CycleFacts, mapping: Option<MappingFacts>, directory: DirectoryFacts): Eligibility {
    if cycle.status !in {"completed", "completed_with_warnings"} then Refused("cycle_not_eligible")
    else if !cycle.classified then Refused("classification_missing")
    else if EvaluateConfidence(cycle.confidence) != Allowed then
      Refused(GateReason(EvaluateConfidence(cycle.confidence)))
    else if cycle.title.None? || Strip(cycle.title.value) == "" then Refused("classification_title_missing")
    else if cycle.description.None? then Refused("classification_description_missing")
    else MappingState(cycle.title.value, cycle.description.value, cycle.protocol, mapping, directory)
  }

  /** Its second half, about the mapping and the directory. */
  function MappingState(title: string, description: string, protocol: Option<string>, mapping: Option<MappingFacts>,
                        directory: DirectoryFacts): Eligibility
  {
    if mapping.None? then Refused("mapping_missing")
    else
      var m := mapping.value;
      if !m.resolved then
        Refused(SafeCategory(if m.reason.Some? && m.reason.value != "" then m.reason.value else "mapping_unresolved"))
      else if m.companyId.None? || m.department.None? then Refused("mapping_facts_missing")
      else if directory.company.None? then Refused("company_unavailable")
      else if !directory.related then Refused("company_department_unavailable")
      else
        match BuildPayload(title, description, protocol, directory.company.value, m.department.value)
        case Err(reason) => Refused(reason)
        case Ok(payload) =>
          Ready(RequestFacts(m.companyId.value, directory.company.value, m.id, m.department.value), payload)
  }

  // ---- What eligibility means ----------------------------------------------------------------

  predicate Confident(c: Confidence) { c.Score? && 0.5 <= c.value <= 1.0 }

  predicate Blank(s: string) { forall i :: 0 <= i < |s| ==> IsSpace(s[i]) }

  /** One check of eligibility, and the category of its failure. */
  datatype Check = Check(passed: bool, category: string)

  /** The identifier between its spaces has none inside. */
  predicate CompanyFits(company: string) {
    !Blank(company) && forall i :: 0 <= i < |Strip(company)| ==> !IsSpace(Strip(company)[i])
  }

  predicate DepartmentFits(department: string) {
    !Blank(department) && forall i :: 0 <= i < |Strip(department)| ==> '0' <= Strip(department)[i] <= '9'
  }

  function CycleChecks(cycle: CycleFacts): seq<Check> {
    var c := cycle.confidence;
    [Check(cycle.status == "completed" || cycle.status == "completed_with_warnings", "cycle_not_eligible"),
     Check(cycle.classified, "classification_missing"),
     Check(c.Score? && 0.0 <= c.value <= 1.0, "confidence_invalid"),
     Check(c.Score? && 0.5 <= c.value, "confidence_below_threshold"),
     Check(cycle.title.Some? && !Blank(cycle.title.value), "classification_title_missing"),
     Check(cycle.description.Some?, "classification_description_missing")]
  }

  /** A bad company identifier is reported as a missing title. */
  function MappingChecks(mapping: Option<MappingFacts>, directory: DirectoryFacts): seq<Check> {
    var mapped := mapping.Some? && mapping.value.companyId.Some? && mapping.value.department.Some?;
    [Check(mapping.Some?, "mapping_missing"),
     Check(mapping.Some? && mapping.value.resolved,
           if mapping.Some? && mapping.value.reason.Some? && mapping.value.reason.value != ""
           then SafeCategory(mapping.value.reason.value) else "mapping_unresolved"),
     Check(mapped, "mapping_facts_missing"),
     Check(directory.company.Some?, "company_unavailable"),
     Check(directory.related, "company_department_unavailable"),
     Check(directory.company.Some? && CompanyFits(directory.company.value), "classification_title_missing"),
     Check(mapped && DepartmentFits(mapping.value.department.value), "department_identifier_invalid")]
  }

  /** Everything that a Request needs, in the order in which it is asked for. */
  function Checks(cycle: CycleFacts, mapping: Option<MappingFacts>, directory: DirectoryFacts): seq<Check> {
    CycleChecks(cycle) + MappingChecks(mapping, directory)
  }

  ghost predicate AllPass(checks: seq<Check>) { forall i :: 0 <= i < |checks| ==> checks[i].passed }

  ghost predicate FirstFailure(checks: seq<Check>, category: string) {
    exists i :: 0 <= i < |checks| && !checks[i].passed && checks[i].category == category
                && forall j :: 0 <= j < i ==> checks[j].passed
  }

  /** The facts and the payload name the cycle's own company, mapping, department and texts. */
  ghost predicate Names(facts: RequestFacts, payload: Payload, cycle: CycleFacts, mapping: Option<MappingFacts>,
                        directory: DirectoryFacts) {
    && cycle.title.Some? && cycle.description.Some? && mapping.Some? && directory.company.Some?
    && mapping.value.companyId == Some(facts.companyId) && mapping.value.department == Some(facts.department)
    && facts.mappingId == mapping.value.id && facts.company == directory.company.value
    && payload.company == Strip(directory.company.value) && payload.department == Strip(facts.department)
    && payload.description == cycle.description.value
    && |payload.subject| <= 100
    && var title := Strip(cycle.title.value);
       var subject := if cycle.protocol.None? || Blank(cycle.protocol.value) then title
                      else "[" + Strip(cycle.protocol.value) + "] - " + title;
       payload.subject <= subject && (|subject| <= 100 ==> payload.subject == subject)
       && (|subject| > 100 ==> |payload.subject| == 100)
  }

  lemma FailsFirst(checks: seq<Check>, i: nat)
    requires i < |checks| && !checks[i].passed && forall j :: 0 <= j < i ==> checks[j].passed
    ensures FirstFailure(checks, checks[i].category) && !AllPass(checks)
  {
  }

  lemma ConfidenceMeaning(c: Confidence)
    ensures EvaluateConfidence(c) == Allowed <==> c.Score? && 0.5 <= c.value <= 1.0
    ensures EvaluateConfidence(c) != Allowed ==>
              GateReason(EvaluateConfidence(c)) ==
              if c.Score? && 0.0 <= c.value <= 1.0 then "confidence_below_threshold" else "confidence_invalid"
  {
  }

  lemma BlankStrip(s: string)
    ensures Strip(s) == "" <==> Blank(s)
  {
    StripMeaning(s);
  }

  lemma UnresolvedCategory()
    ensures SafeCategory("mapping_unresolved") == "mapping_unresolved"
  {
    SafeCategoryKeeps("mapping_unresolved");
  }

  /** The payload is built exactly when the two identifiers fit. */
  lemma PayloadMeaning(cycle: CycleFacts, mapping: MappingFacts, directory: DirectoryFacts)
    requires cycle.title.Some? && !Blank(cycle.title.value) && cycle.description.Some?
    requires mapping.companyId.Some? && mapping.department.Some? && directory.company.Some?
    ensures var company, department := directory.company.value, mapping.department.value;
            var built := BuildPayload(cycle.title.value, cycle.description.value, cycle.protocol, company, department);
            && (built.Ok? <==> CompanyFits(company) && DepartmentFits(department))
            && (!CompanyFits(company) ==> built == Err("classification_title_missing"))
            && (CompanyFits(company) && !DepartmentFits(department) ==> built == Err("department_identifier_invalid"))
            && (built.Ok? ==> Names(RequestFacts(mapping.companyId.value, company, mapping.id, department), built.value,
                                    cycle, Some(mapping), directory))
  {
    hide Strip, IsSpace, Blank;
    BlankStrip(cycle.title.value);
    if cycle.protocol.Some? { BlankStrip(cycle.protocol.value); }
    BlankStrip(directory.company.value);
    BlankStrip(mapping.department.value);
  }

  lemma AllPassed(checks: seq<Check>)
    requires forall i :: 0 <= i < |checks| ==> checks[i].passed
    ensures AllPass(checks)
  {
  }

  lemma CycleChecksDecide(cycle: CycleFacts, mapping: Option<MappingFacts>, directory: DirectoryFacts)
    ensures var e, checks := OperationState(cycle, mapping, directory), CycleChecks(cycle);
            && (AllPass(checks) ==>
                  && cycle.title.Some? && !Blank(cycle.title.value) && cycle.description.Some?
                  && e == MappingState(cycle.title.value, cycle.description.value, cycle.protocol, mapping, directory))
            && (!AllPass(checks) ==> e.Refused? && FirstFailure(checks, e.reason))
  {
    hide MappingState, Strip, IsSpace, Blank, EvaluateConfidence, GateReason, FirstFailure;
    ConfidenceMeaning(cycle.confidence);
    if cycle.title.Some? { BlankStrip(cycle.title.value); }
    var checks := CycleChecks(cycle);
    if !checks[0].passed { FailsFirst(checks, 0); }
    else if !checks[1].passed { FailsFirst(checks, 1); }
    else if !checks[2].passed { FailsFirst(checks, 2); }
    else if !checks[3].passed { FailsFirst(checks, 3); }
    else if !checks[4].passed { FailsFirst(checks, 4); }
    else if !checks[5].passed { FailsFirst(checks, 5); }
  }

  lemma MappingChecksDecide(cycle: CycleFacts, mapping: Option<MappingFacts>, directory: DirectoryFacts)
    requires cycle.title.Some? && !Blank(cycle.title.value) && cycle.description.Some?
    ensures var checks := MappingChecks(mapping, directory);
            var e := MappingState(cycle.title.value, cycle.description.value, cycle.protocol, mapping, directory);
            && (e.Ready? <==> AllPass(checks))
            && (e.Ready? ==> Names(e.facts, e.payload, cycle, mapping, directory))
            && (e.Refused? ==> FirstFailure(checks, e.reason))
  {
    hide Strip, IsSpace, Blank, CompanyFits, DepartmentFits, BuildPayload, Names, SafeCategory, AllPass, FirstFailure;
    UnresolvedCategory();
    if && mapping.Some? && mapping.value.companyId.Some? && mapping.value.department.Some? && directory.company.Some? {
      PayloadMeaning(cycle, mapping.value, directory);
    }
    var checks := MappingChecks(mapping, directory);
    if !checks[0].passed { FailsFirst(checks, 0); }
    else if !checks[1].passed { FailsFirst(checks, 1); }
    else if !checks[2].passed { FailsFirst(checks, 2); }
    else if !checks[3].passed { FailsFirst(checks, 3); }
    else if !checks[4].passed { FailsFirst(checks, 4); }
    else if !checks[5].passed { FailsFirst(checks, 5); }
    else if !checks[6].passed { FailsFirst(checks, 6); }
    else { AllPassed(checks); }
  }

  lemma AllPassConcat(a: seq<Check>, b: seq<Check>)
    ensures AllPass(a + b) <==> AllPass(a) && AllPass(b)
  {
    var all := a + b;
    assert forall i :: 0 <= i < |a| ==> a[i] == all[i];
    assert forall i :: 0 <= i < |b| ==> b[i] == all[|a| + i];
  }

  lemma FailureConcat(a: seq<Check>, b: seq<Check>, category: string)
    ensures FirstFailure(a, category) ==> FirstFailure(a + b, category)
    ensures AllPass(a) && FirstFailure(b, category) ==> FirstFailure(a + b, category)
  {
    if FirstFailure(a, category) {
      var i :| 0 <= i < |a| && !a[i].passed && a[i].category == category && forall j :: 0 <= j < i ==> a[j].passed;
      FailsFirst(a + b, i);
    }
    if AllPass(a) && FirstFailure(b, category) {
      var i :| 0 <= i < |b| && !b[i].passed && b[i].category == category && forall j :: 0 <= j < i ==> b[j].passed;
      FailsFirst(a + b, |a| + i);
    }
  }

  /** A cycle is ready exactly when it passes every check. Then the facts and the payload name what the cycle
      has; otherwise the reason is the category of the first check that fails. */
  lemma EligibilityMeaning(cycle: CycleFacts, mapping: Option<MappingFacts>, directory: DirectoryFacts)
    ensures var e, checks := OperationState(cycle, mapping, directory), Checks(cycle, mapping, directory);
            && (e.Ready? <==> AllPass(checks))
            && (e.Ready? ==> Names(e.facts, e.payload, cycle, mapping, directory))
            && (e.Refused? ==> FirstFailure(checks, e.reason))
  {
    hide OperationState, MappingState, Names, FirstFailure, AllPass, CycleChecks, MappingChecks, Blank;
    var e := OperationState(cycle, mapping, directory);
    CycleChecksDecide(cycle, mapping, directory);
    AllPassConcat(CycleChecks(cycle), MappingChecks(mapping, directory));
    if e.Refused? { FailureConcat(CycleChecks(cycle), MappingChecks(mapping, directory), e.reason); }
    if AllPass(CycleChecks(cycle)) { MappingChecksDecide(cycle, mapping, directory); }
  }

  lemma NotBoth(checks: seq<Check>)
    ensures forall category :: FirstFailure(checks, category) ==> !AllPass(checks)
  {
  }

  // ---- The row -----------------------------------------------------------------------------

  datatype ReconciliationNote =
    | NoNote
    | Required(category: string)
    | Manual(order: Order)

  datatype RecoveryNote = NoRecovery | Blocked(stage: string, reason: string) | Prepared

  /** `failure_message` always equals `failure_category`; the fingerprint and the metadata are
      functions of the payload. */
  datatype Operation = Operation(
    state: RequestState,
    attempts: nat,
    owner: Option<string>,
    expires: Option<int>,
    postStarted: Option<int>,
    firstAttempt: Option<int>,
    lastAttempt: Option<int>,
    completedAt: Option<int>,
    solId: Option<string>,
    providerStatus: Option<int>,
    category: Option<string>,
    note: ReconciliationNote,
    recovery: RecoveryNote,
    facts: Option<RequestFacts>,
    payload: Option<Payload>,
    gate: Option<Confidence>)

  /** The row that `_ensure_operation_sync` inserts. */
  function Fresh(cycle: CycleFacts, e: Eligibility): Operation {
    Operation(if e.Ready? then NotStarted else DefinitiveFailure,
              0, None, None, None, None, None, None, None, None,
              if e.Ready? then None else Some(e.reason),
              NoNote, NoRecovery,
              if e.Ready? then Some(e.facts) else None,
              if e.Ready? then Some(e.payload) else None,
              if cycle.classified then Some(cycle.confidence) else None)
  }

  predicate Claimable(s: RequestState) { s in {NotStarted, RetryableFailure} }

  predicate HeldBy(op: Operation, owner: string) {
    op.state == Attempting && op.owner == Some(owner)
  }

  predicate Expired(op: Operation, now: int) {
    op.state == Attempting && op.expires.Some? && op.expires.value <= now
  }

  /** The first half of `_claim_operation_sync`: what an expired lease becomes. */
  function Recover(op: Operation, now: int): Operation {
    if !Expired(op, now) then op
    else if op.postStarted.None? then
      op.(state := RetryableFailure, category := Some("crash_before_post"), owner := None, expires := None)
    else
      op.(state := ReconciliationRequired, category := Some("claim_expired_after_post_start"),
          owner := None, expires := None)
  }

  /** The second half: the claim itself. */
  function TakeClaim(op: Operation, owner: string, lease: int, now: int): (Operation, bool) {
    if Claimable(op.state) then
      (op.(state := Attempting, owner := Some(owner), expires := Some(now + lease)), true)
    else (op, false)
  }

  function Claim(op: Operation, owner: string, lease: int, now: int): (Operation, bool) {
    TakeClaim(Recover(op, now), owner, lease, now)
  }

  /** A row whose preparation may be recovered: the mapping was missing and nothing was ever tried. */
  predicate Recoverable(op: Operation) {
    && op.state == DefinitiveFailure && op.category == Some("mapping_missing")
    && op.postStarted.None? && op.solId.None? && op.attempts == 0
    && op.firstAttempt.None? && op.lastAttempt.None?
  }

  function ClaimRecovery(op: Operation, owner: string, lease: int, now: int): (Operation, bool) {
    if !Recoverable(op) || op.note != NoNote then (op, false)
    else if op.owner.Some? && op.expires.Some? && op.expires.value > now && op.owner != Some(owner) then (op, false)
    else (op.(owner := Some(owner), expires := Some(now + lease)), true)
  }

  function RecordBlocked(op: Operation, owner: string, stage: string, reason: string): (Operation, bool) {
    if && op.state == DefinitiveFailure && op.category == Some("mapping_missing") && op.owner == Some(owner)
       && op.postStarted.None? && op.solId.None?
    then (op.(owner := None, expires := None, recovery := Blocked(SafeCategory(stage), SafeCategory(reason))), true)
    else (op, false)
  }

  function Reopen(op: Operation, owner: string, e: Eligibility): (Operation, bool) {
    if e.Ready? && Recoverable(op) && op.owner == Some(owner) then
      (op.(state := NotStarted, category := None, recovery := Prepared,
           facts := Some(e.facts), payload := Some(e.payload), gate := None), true)
    else (op, false)
  }

  /** `_finish_confidence_blocked_sync`: it acts only while no POST marker was ever set. */
  function FinishBlocked(op: Operation, owner: string, c: Confidence): Operation {
    if HeldBy(op, owner) && op.postStarted.None? then
      op.(state := DefinitiveFailure, category := Some(GateReason(EvaluateConfidence(c))),
          gate := Some(c), owner := None, expires := None)
    else op
  }

  function Refresh(op: Operation, owner: string, payload: Payload, c: Confidence): (Operation, bool) {
    if HeldBy(op, owner) && op.postStarted.None? then (op.(payload := Some(payload), gate := Some(c)), true)
    else (op, false)
  }

  /** `_mark_post_started_sync`. The second component says that the caller may POST. */
  function Mark(op: Operation, owner: string, c: Confidence, now: int): (Operation, bool) {
    if !HeldBy(op, owner) then (op, false)
    else if EvaluateConfidence(c) != Allowed then (FinishBlocked(op, owner, c), false)
    else (op.(postStarted := Some(now), attempts := op.attempts + 1,
              firstAttempt := if op.firstAttempt.Some? then op.firstAttempt else Some(now),
              lastAttempt := Some(now), category := None), true)
  }

  /** Outcomes that `_finish_operation_sync` refuses before it opens a transaction. */
  predicate Unsupported(o: Outcome) {
    || o.state in {NotStarted, Attempting}
    || (o.state == Completed && (o.solId.None? || o.solId.value == ""))
  }

  function Finish(op: Operation, owner: string, o: Outcome, now: int): (Operation, bool) {
    if Unsupported(o) || !HeldBy(op, owner) then (op, false)
    else (op.(state := o.state, solId := o.solId, providerStatus := o.providerStatus,
              category := if o.state == Completed then None else Some(o.category),
              completedAt := if o.state == Completed then Some(now) else None,
              owner := None, expires := None,
              note := if o.state == ReconciliationRequired then Required(o.category) else op.note), true)
  }

  // ---- Manual reconciliation ---------------------------------------------------------------

  type SolId = s: string | SafeSolId(s) witness "1"

  /** What an operator asks for, before validation. */
  datatype Command = Command(record: bool, solId: Option<string>, reason: string, key: string,
                             actor: Option<string>, proofOfAbsence: bool)

  /** A validated command. */
  datatype Order =
    | Record(solId: SolId, reason: string, key: string, actor: Option<string>)
    | Release(reason: string, key: string, actor: Option<string>)

  predicate KeyChar(c: char) { IsAlnum(c) || c in "_.:@-" }

  /** The validation that precedes the transaction of `_record_reconciliation_sync`. */
  function Parse(cmd: Command): (order: Option<Order>)
    ensures order.Some? ==> order.value.key == Strip(cmd.key) && order.value.Record? == cmd.record
    ensures order.Some? && order.value.Release? ==> cmd.proofOfAbsence
    ensures order.Some? && order.value.Record? ==> cmd.solId.Some? && order.value.solId == Strip(cmd.solId.value)
  {
    var reason, key := Lower(Strip(cmd.reason)), Strip(cmd.key);
    var actor := if cmd.actor.Some? then Some(Strip(cmd.actor.value)) else None;
    if !Matches(reason, CategoryChar, 120) || !Matches(key, KeyChar, 240) then None
    else if actor.Some? && !Matches(actor.value, KeyChar, 160) then None
    else if cmd.record then
      if cmd.solId.Some? && SafeSolId(Strip(cmd.solId.value)) then
        Some(Record(Strip(cmd.solId.value), reason, key, actor))
      else None
    else if cmd.proofOfAbsence then Some(Release(reason, key, actor))
    else None
  }

  datatype Refusal = InvalidArgument | OperationNotFound | ReconciliationNotRequired | Conflict

  datatype Audit = Audit(cycle: nat, order: Order)

  function Resolve(op: Operation, order: Order, now: int): Operation {
    match order
    case Record(solId, _, _, _) =>
      op.(state := Completed, solId := Some(solId),
          completedAt := if op.completedAt.Some? then op.completedAt else Some(now),
          category := None, owner := None, expires := None, note := Manual(order))
    case Release(_, _, _) =>
      op.(state := RetryableFailure, category := Some("released_after_remote_absence"),
          owner := None, expires := None, note := Manual(order))
  }

  // ---- What each transaction writes ----------------------------------------------------------

  /** The row that a cycle without one gets. */
  ghost predicate InsertedAs(row: Operation, cycle: CycleFacts, mapping: Option<MappingFacts>, directory: DirectoryFacts) {
    var checks := Checks(cycle, mapping, directory);
    && (AllPass(checks) ==>
          && row.state == NotStarted && row.category.None? && row.facts.Some? && row.payload.Some?
          && Names(row.facts.value, row.payload.value, cycle, mapping, directory))
    && (!AllPass(checks) ==>
          && row.state == DefinitiveFailure && row.category.Some? && FirstFailure(checks, row.category.value)
          && row.facts.None? && row.payload.None?)
    && row.gate == (if cycle.classified then Some(cycle.confidence) else None)
    && row.attempts == 0 && row.owner.None? && row.expires.None? && row.postStarted.None? && row.firstAttempt.None?
    && row.lastAttempt.None? && row.completedAt.None? && row.solId.None? && row.providerStatus.None?
    && row.note == NoNote && row.recovery == NoRecovery
  }

  lemma FreshMeaning(cycle: CycleFacts, mapping: Option<MappingFacts>, directory: DirectoryFacts)
    ensures InsertedAs(Fresh(cycle, OperationState(cycle, mapping, directory)), cycle, mapping, directory)
  {
    hide OperationState, Checks, AllPass, FirstFailure, Names;
    EligibilityMeaning(cycle, mapping, directory);
    NotBoth(Checks(cycle, mapping, directory));
  }

  ghost predicate SameAttempts(a: Operation, b: Operation) {
    && b.attempts == a.attempts && b.postStarted == a.postStarted
    && b.firstAttempt == a.firstAttempt && b.lastAttempt == a.lastAttempt
  }

  ghost predicate SameResult(a: Operation, b: Operation) {
    b.completedAt == a.completedAt && b.solId == a.solId && b.providerStatus == a.providerStatus && b.note == a.note
  }

  ghost predicate SameRequest(a: Operation, b: Operation) {
    b.recovery == a.recovery && b.facts == a.facts && b.payload == a.payload && b.gate == a.gate
  }

  ghost predicate Unclaimed(op: Operation) { op.owner.None? && op.expires.None? }

  /** Which rows a claim takes, what it makes of an expired lease, and how long its own lease keeps others out. */
  lemma ClaimMeaning(op: Operation, owner: string, lease: int, now: int)
    ensures var (next, claimed) := Claim(op, owner, lease, now);
            var expired := op.state == Attempting && op.expires.Some? && op.expires.value <= now;
            && SameAttempts(op, next) && SameResult(op, next) && SameRequest(op, next)
            && (claimed <==> op.state == NotStarted || op.state == RetryableFailure || (expired && op.postStarted.None?))
            && (claimed ==>
                  && next.state == Attempting && next.owner == Some(owner) && next.expires == Some(now + lease)
                  && next.category == (if expired then Some("crash_before_post") else op.category)
                  && forall other, seconds, later :: later < now + lease ==> !Claim(next, other, seconds, later).1)
            && (!claimed && expired ==>
                  && next.state == ReconciliationRequired && Unclaimed(next)
                  && next.category == Some("claim_expired_after_post_start"))
            && (!claimed && !expired ==> next == op)
  {
  }

  lemma ClaimRecoveryMeaning(op: Operation, owner: string, lease: int, now: int)
    ensures var (next, claimed) := ClaimRecovery(op, owner, lease, now);
            && SameAttempts(op, next) && SameResult(op, next) && SameRequest(op, next)
            && next.state == op.state && next.category == op.category
            && (claimed <==>
                  && op.state == DefinitiveFailure && op.category == Some("mapping_missing") && op.note == NoNote
                  && op.postStarted.None? && op.solId.None? && op.attempts == 0
                  && op.firstAttempt.None? && op.lastAttempt.None?
                  && (op.owner.None? || op.owner == Some(owner) || op.expires.None? || op.expires.value <= now))
            && (claimed ==> next.owner == Some(owner) && next.expires == Some(now + lease))
            && (!claimed ==> next == op)
  {
  }

  lemma RecordBlockedMeaning(op: Operation, owner: string, stage: string, reason: string)
    ensures var (next, kept) := RecordBlocked(op, owner, stage, reason);
            && SameAttempts(op, next) && SameResult(op, next) && next.state == op.state && next.category == op.category
            && next.facts == op.facts && next.payload == op.payload && next.gate == op.gate
            && (kept <==> && op.state == DefinitiveFailure && op.category == Some("mapping_missing")
                          && op.owner == Some(owner) && op.postStarted.None? && op.solId.None?)
            && (kept ==> Unclaimed(next) && next.recovery.Blocked?
                         && next.recovery.stage == SafeCategory(stage) && next.recovery.reason == SafeCategory(reason))
            && (!kept ==> next == op)
  {
  }

  /** The row that a recovered preparation leaves. */
  ghost predicate ReopenedAs(op: Operation, next: Operation, cycle: CycleFacts, mapping: Option<MappingFacts>,
                             directory: DirectoryFacts) {
    && next.state == NotStarted && next.category.None? && next.recovery == Prepared && next.gate.None?
    && next.facts.Some? && next.payload.Some?
    && Names(next.facts.value, next.payload.value, cycle, mapping, directory)
    && next.owner == op.owner && next.expires == op.expires && SameAttempts(op, next) && SameResult(op, next)
  }

  lemma ReopenMeaning(op: Operation, owner: string, cycle: CycleFacts, mapping: Option<MappingFacts>, directory: DirectoryFacts)
    ensures var (next, reopened) := Reopen(op, owner, OperationState(cycle, mapping, directory));
            && (reopened <==>
                  && AllPass(Checks(cycle, mapping, directory))
                  && op.state == DefinitiveFailure && op.category == Some("mapping_missing") && op.owner == Some(owner)
                  && op.postStarted.None? && op.solId.None? && op.attempts == 0
                  && op.firstAttempt.None? && op.lastAttempt.None?)
            && (reopened ==> ReopenedAs(op, next, cycle, mapping, directory))
            && (!reopened ==> next == op)
  {
    hide OperationState, Checks, AllPass, FirstFailure, Names;
    EligibilityMeaning(cycle, mapping, directory);
  }

  lemma FinishBlockedMeaning(op: Operation, owner: string, c: Confidence)
    ensures var next := FinishBlocked(op, owner, c);
            && SameAttempts(op, next) && SameResult(op, next) && next.recovery == op.recovery
            && next.facts == op.facts && next.payload == op.payload
            && (op.state == Attempting && op.owner == Some(owner) && op.postStarted.None? ==>
                  && next.state == DefinitiveFailure && Unclaimed(next) && next.gate == Some(c)
                  && next.category == Some(if Confident(c) then "confidence_accepted"
                                           else if c.Score? && 0.0 <= c.value <= 1.0 then "confidence_below_threshold"
                                           else "confidence_invalid"))
            && (!(op.state == Attempting && op.owner == Some(owner) && op.postStarted.None?) ==> next == op)
  {
  }

  lemma RefreshMeaning(op: Operation, owner: string, payload: Payload, c: Confidence)
    ensures var (next, done) := Refresh(op, owner, payload, c);
            && SameAttempts(op, next) && SameResult(op, next) && next.recovery == op.recovery && next.facts == op.facts
            && next.state == op.state && next.category == op.category && next.owner == op.owner && next.expires == op.expires
            && (done <==> op.state == Attempting && op.owner == Some(owner) && op.postStarted.None?)
            && next.payload == (if done then Some(payload) else op.payload)
            && next.gate == (if done then Some(c) else op.gate)
  {
  }

  /** A marker is set exactly by the holder with an allowed confidence. It counts the attempt, keeps the first time,
      and leaves the claim as it is. */
  lemma MarkMeaning(op: Operation, owner: string, c: Confidence, now: int)
    ensures var (next, mayPost) := Mark(op, owner, c, now);
            && SameResult(op, next) && next.recovery == op.recovery && next.facts == op.facts && next.payload == op.payload
            && (mayPost <==> op.state == Attempting && op.owner == Some(owner) && Confident(c))
            && (mayPost ==>
                  && next.state == Attempting && next.owner == op.owner && next.expires == op.expires && next.gate == op.gate
                  && next.postStarted == Some(now) && next.lastAttempt == Some(now) && next.category.None?
                  && next.attempts == op.attempts + 1
                  && (op.firstAttempt.Some? ==> next.firstAttempt == op.firstAttempt)
                  && (op.firstAttempt.None? ==> next.firstAttempt == Some(now)))
            && (!mayPost ==> SameAttempts(op, next))
            && (!mayPost && !(op.state == Attempting && op.owner == Some(owner) && op.postStarted.None?) ==> next == op)
            && (!mayPost && next != op ==> next.state == DefinitiveFailure && Unclaimed(next))
  {
  }

  /** The holder records its outcome, and gives the row up. */
  lemma FinishMeaning(op: Operation, owner: string, o: Outcome, now: int)
    ensures var (next, recorded) := Finish(op, owner, o, now);
            && SameAttempts(op, next) && SameRequest(op, next)
            && (recorded <==>
                  && op.state == Attempting && op.owner == Some(owner)
                  && (|| o.state == RetryableFailure || o.state == ReconciliationRequired || o.state == DefinitiveFailure
                      || (o.state == Completed && o.solId.Some? && |o.solId.value| > 0)))
            && (recorded ==>
                  && next.state == o.state && Unclaimed(next) && next.solId == o.solId && next.providerStatus == o.providerStatus
                  && (o.state == Completed ==> next.category.None? && next.completedAt == Some(now))
                  && (o.state != Completed ==> next.category == Some(o.category) && next.completedAt.None?)
                  && (o.state == ReconciliationRequired ==> next.note.Required? && next.note.category == o.category)
                  && (o.state != ReconciliationRequired ==> next.note == op.note))
            && (!recorded ==> next == op)
  {
  }

  /** A recorded id completes the row. A release makes it claimable again, at any time, and keeps its attempts. */
  lemma ResolveMeaning(op: Operation, order: Order, now: int)
    ensures var next := Resolve(op, order, now);
            && SameAttempts(op, next) && SameRequest(op, next) && Unclaimed(next) && next.note == Manual(order)
            && next.providerStatus == op.providerStatus
            && (order.Record? ==>
                  && next.state == Completed && next.solId == Some(order.solId) && next.category.None?
                  && next.completedAt.Some? && (op.completedAt.Some? ==> next.completedAt == op.completedAt)
                  && (op.completedAt.None? ==> next.completedAt == Some(now)))
            && (order.Release? ==>
                  && next.state == RetryableFailure && next.category == Some("released_after_remote_absence")
                  && next.solId == op.solId && next.completedAt == op.completedAt
                  && forall owner, lease, later :: Claim(next, owner, lease, later).1)
  {
  }

  /** A command is valid exactly with a safe reason and key, a safe actor if any, and what its action needs: a
      safe id to record, or proof of absence to release. */
  lemma ParseMeaning(cmd: Command)
    ensures var order := Parse(cmd);
            && (order.Some? <==>
                  && Matches(Lower(Strip(cmd.reason)), CategoryChar, 120) && Matches(Strip(cmd.key), KeyChar, 240)
                  && (cmd.actor.Some? ==> Matches(Strip(cmd.actor.value), KeyChar, 160))
                  && (cmd.record ==> cmd.solId.Some? && SafeSolId(Strip(cmd.solId.value)))
                  && (!cmd.record ==> cmd.proofOfAbsence))
            && (order.Some? ==>
                  && order.value.Record? == cmd.record && order.value.key == Strip(cmd.key)
                  && order.value.reason == Lower(Strip(cmd.reason))
                  && order.value.actor == (if cmd.actor.Some? then Some(Strip(cmd.actor.value)) else None)
                  && (cmd.record ==> order.value.Record? && order.value.solId == Strip(cmd.solId.value)))
  {
    hide Strip, Lower, Matches, SafeSolId;
  }

  // ---- The tables --------------------------------------------------------------------------

  datatype Db = Db(ops: map<nat, Operation>, audits: map<string, Audit>)

  /** What one order does: `Ok(true)` acts, `Ok(false)` replays a recorded key. */
  function Verdict(db: Db, cycle: nat, order: Order): Result<bool, Refusal> {
    if cycle !in db.ops then Err(OperationNotFound)
    else if order.key in db.audits then
      if db.audits[order.key].cycle == cycle then Ok(false) else Err(Conflict)
    else
      var op := db.ops[cycle];
      if order.Record? then
        if op.state !in {ReconciliationRequired, Completed} then Err(ReconciliationNotRequired)
        else if op.state == Completed && op.solId != Some(order.solId) then Err(Conflict)
        else Ok(true)
      else if op.state != ReconciliationRequired then Err(Conflict)
      else Ok(true)
  }

  function Reconciled(db: Db, cycle: nat, order: Order, now: int): Db {
    if Verdict(db, cycle, order) == Ok(true) then
      Db(db.ops[cycle := Resolve(db.ops[cycle], order, now)], db.audits[order.key := Audit(cycle, order)])
    else db
  }

  /** When an order acts, when it is a replay, and what refuses it. */
  lemma VerdictMeaning(db: Db, cycle: nat, order: Order)
    ensures var v := Verdict(db, cycle, order);
            && (v == Err(OperationNotFound) <==> cycle !in db.ops)
            && (v == Ok(false) <==> cycle in db.ops && order.key in db.audits && db.audits[order.key].cycle == cycle)
            && v != Err(InvalidArgument)
            && (cycle in db.ops && order.key in db.audits && db.audits[order.key].cycle != cycle ==> v == Err(Conflict))
            && (cycle in db.ops && order.key !in db.audits ==>
                  var op := db.ops[cycle];
                  && (order.Record? ==>
                        && (v == Ok(true) <==> op.state == ReconciliationRequired
                                               || (op.state == Completed && op.solId == Some(order.solId)))
                        && (v == Err(Conflict) <==> op.state == Completed && op.solId != Some(order.solId)))
                  && (order.Release? ==> v == if op.state == ReconciliationRequired then Ok(true) else Err(Conflict)))
  {
  }

  /** An order that acts writes one row and one audit row; any other verdict writes nothing. */
  lemma ReconciledMeaning(db: Db, cycle: nat, order: Order, now: int)
    ensures var next := Reconciled(db, cycle, order, now);
            if Verdict(db, cycle, order) == Ok(true) then
              && next.audits.Keys == db.audits.Keys + {order.key} && next.audits[order.key] == Audit(cycle, order)
              && (forall key :: key in db.audits ==> key != order.key && next.audits[key] == db.audits[key])
              && next.ops.Keys == db.ops.Keys && next.ops[cycle] == Resolve(db.ops[cycle], order, now)
              && (forall c :: c in db.ops && c != cycle ==> next.ops[c] == db.ops[c])
            else next == db
  {
    hide Resolve;
  }

  function With(db: Db, cycle: nat, op: Operation): Db { db.(ops := db.ops[cycle := op]) }

  /** The two tables, updated in place; one method is one transaction. */
  class RequestStore {
    var ops: map<nat, Operation>
    var audits: map<string, Audit>

    ghost function Tables(): Db reads this { Db(ops, audits) }

    constructor ()
      ensures Tables() == Db(map[], map[])
    {
      ops, audits := map[], map[];
    }

    method Ensure(cycle: nat, facts: CycleFacts, mapping: Option<MappingFacts>, directory: DirectoryFacts)
      returns (row: Operation)
      modifies this`ops
      ensures cycle in ops && row == ops[cycle]
      ensures cycle !in old(ops) ==> InsertedAs(row, facts, mapping, directory)
      ensures Tables() == if cycle in old(ops) then old(Tables())
                          else With(old(Tables()), cycle, Fresh(facts, OperationState(facts, mapping, directory)))
    {
      hide InsertedAs, Fresh, OperationState;
      FreshMeaning(facts, mapping, directory);
      if cycle !in ops {
        ops := ops[cycle := Fresh(facts, OperationState(facts, mapping, directory))];
      }
      row := ops[cycle];
    }

    method ClaimOperation(cycle: nat, owner: string, lease: int, now: int) returns (claimed: bool)
      modifies this`ops
      ensures claimed == (cycle in old(ops) && Claim(old(ops)[cycle], owner, lease, now).1)
      ensures Tables() == if cycle !in old(ops) then old(Tables())
                          else With(old(Tables()), cycle, Claim(old(ops)[cycle], owner, lease, now).0)
    {
      if cycle !in ops {
        return false;
      }
      if Expired(ops[cycle], now) {
        if ops[cycle].postStarted.None? {
          ops := ops[cycle := ops[cycle].(state := RetryableFailure, category := Some("crash_before_post"),
                                          owner := None, expires := None)];
        } else {
          ops := ops[cycle := ops[cycle].(state := ReconciliationRequired,
                                          category := Some("claim_expired_after_post_start"),
                                          owner := None, expires := None)];
        }
      }
      claimed := Claimable(ops[cycle].state);
      if claimed {
        ops := ops[cycle := ops[cycle].(state := Attempting, owner := Some(owner), expires := Some(now + lease))];
      }
    }

    method ClaimMappingRecovery(cycle: nat, owner: string, lease: int, now: int) returns (claimed: bool)
      modifies this`ops
      ensures claimed == (cycle in old(ops) && ClaimRecovery(old(ops)[cycle], owner, lease, now).1)
      ensures Tables() == if cycle !in old(ops) then old(Tables())
                          else With(old(Tables()), cycle, ClaimRecovery(old(ops)[cycle], owner, lease, now).0)
    {
      if cycle !in ops || !Recoverable(ops[cycle]) || ops[cycle].note != NoNote {
        return false;
      }
      var row := ops[cycle];
      if row.owner.Some? && row.expires.Some? && row.expires.value > now && row.owner != Some(owner) {
        return false;
      }
      ops := ops[cycle := row.(owner := Some(owner), expires := Some(now + lease))];
      claimed := true;
    }

    /** False when the claim was lost, which the source raises. */
    method RecordRecoveryBlocked(cycle: nat, owner: string, stage: string, reason: string) returns (kept: bool)
      modifies this`ops
      ensures kept == (cycle in old(ops) && RecordBlocked(old(ops)[cycle], owner, stage, reason).1)
      ensures Tables() == if cycle !in old(ops) then old(Tables())
                          else With(old(Tables()), cycle, RecordBlocked(old(ops)[cycle], owner, stage, reason).0)
    {
      kept := false;
      if cycle in ops {
        var row := ops[cycle];
        if && row.state == DefinitiveFailure && row.category == Some("mapping_missing")
           && row.owner == Some(owner) && row.postStarted.None? && row.solId.None?
        {
          ops := ops[cycle := row.(owner := None, expires := None,
                                   recovery := Blocked(SafeCategory(stage), SafeCategory(reason)))];
          kept := true;
        }
      }
    }

    method ReopenPrepared(cycle: nat, owner: string, facts: CycleFacts, mapping: Option<MappingFacts>,
                          directory: DirectoryFacts) returns (reopened: bool)
      modifies this`ops
      ensures var e := OperationState(facts, mapping, directory);
              && reopened == (cycle in old(ops) && Reopen(old(ops)[cycle], owner, e).1)
              && Tables() == if cycle !in old(ops) then old(Tables())
                             else With(old(Tables()), cycle, Reopen(old(ops)[cycle], owner, e).0)
      ensures reopened ==> cycle in ops && ReopenedAs(old(ops)[cycle], ops[cycle], facts, mapping, directory)
      ensures reopened ==> AllPass(Checks(facts, mapping, directory))
    {
      hide ReopenedAs, OperationState, AllPass, Checks;
      var e := OperationState(facts, mapping, directory);
      if cycle in ops { ReopenMeaning(ops[cycle], owner, facts, mapping, directory); }
      reopened := false;
      if e.Ready? && cycle in ops {
        var row := ops[cycle];
        if Recoverable(row) && row.owner == Some(owner) {
          ops := ops[cycle := row.(state := NotStarted, category := None, recovery := Prepared,
                                   facts := Some(e.facts), payload := Some(e.payload), gate := None)];
          reopened := true;
        }
      }
    }

    method FinishConfidenceBlocked(cycle: nat, owner: string, c: Confidence)
      modifies this`ops
      ensures Tables() == if cycle !in old(ops) then old(Tables())
                          else With(old(Tables()), cycle, FinishBlocked(old(ops)[cycle], owner, c))
    {
      if cycle in ops && HeldBy(ops[cycle], owner) && ops[cycle].postStarted.None? {
        ops := ops[cycle := ops[cycle].(state := DefinitiveFailure,
                                        category := Some(GateReason(EvaluateConfidence(c))),
                                        gate := Some(c), owner := None, expires := None)];
      }
    }

    method RefreshPayload(cycle: nat, owner: string, payload: Payload, c: Confidence) returns (done: bool)
      modifies this`ops
      ensures done == (cycle in old(ops) && Refresh(old(ops)[cycle], owner, payload, c).1)
      ensures Tables() == if cycle !in old(ops) then old(Tables())
                          else With(old(Tables()), cycle, Refresh(old(ops)[cycle], owner, payload, c).0)
    {
      done := cycle in ops && HeldBy(ops[cycle], owner) && ops[cycle].postStarted.None?;
      if done {
        ops := ops[cycle := ops[cycle].(payload := Some(payload), gate := Some(c))];
      }
    }

    method MarkPostStarted(cycle: nat, owner: string, c: Confidence, now: int) returns (mayPost: bool)
      modifies this`ops
      ensures mayPost == (cycle in old(ops) && Mark(old(ops)[cycle], owner, c, now).1)
      ensures Tables() == if cycle !in old(ops) then old(Tables())
                          else With(old(Tables()), cycle, Mark(old(ops)[cycle], owner, c, now).0)
    {
      if cycle !in ops || !HeldBy(ops[cycle], owner) {
        return false;
      }
      if EvaluateConfidence(c) != Allowed {
        FinishConfidenceBlocked(cycle, owner, c);
        return false;
      }
      var row := ops[cycle];
      ops := ops[cycle := row.(postStarted := Some(now), attempts := row.attempts + 1,
                               firstAttempt := if row.firstAttempt.Some? then row.firstAttempt else Some(now),
                               lastAttempt := Some(now), category := None)];
      mayPost := true;
    }

    method FinishOperation(cycle: nat, owner: string, o: Outcome, now: int) returns (recorded: bool)
      modifies this`ops
      ensures recorded == (cycle in old(ops) && Finish(old(ops)[cycle], owner, o, now).1)
      ensures Tables() == if cycle !in old(ops) then old(Tables())
                          else With(old(Tables()), cycle, Finish(old(ops)[cycle], owner, o, now).0)
    {
      recorded := !Unsupported(o) && cycle in ops && HeldBy(ops[cycle], owner);
      if recorded {
        var row := ops[cycle].(state := o.state, solId := o.solId, providerStatus := o.providerStatus,
                               owner := None, expires := None);
        if o.state == Completed {
          row := row.(category := None, completedAt := Some(now));
        } else {
          row := row.(category := Some(o.category), completedAt := None);
        }
        if o.state == ReconciliationRequired {
          row := row.(note := Required(o.category));
        }
        ops := ops[cycle := row];
      }
    }

    method RecordReconciliation(cycle: nat, cmd: Command, now: int) returns (result: Result<bool, Refusal>)
      modifies this
      ensures match Parse(cmd)
              case None => result == Err(InvalidArgument) && Tables() == old(Tables())
              case Some(order) => && result == Verdict(old(Tables()), cycle, order)
                                  && Tables() == Reconciled(old(Tables()), cycle, order, now)
    {
      hide Parse, Resolve;
      var parsed := Parse(cmd);
      if parsed.None? {
        return Err(InvalidArgument);
      }
      var order := parsed.value;
      if cycle !in ops {
        return Err(OperationNotFound);
      }
      if order.key in audits {
        return if audits[order.key].cycle == cycle then Ok(false) else Err(Conflict);
      }
      var row := ops[cycle];
      if order.Record? {
        if row.state != ReconciliationRequired && row.state != Completed {
          return Err(ReconciliationNotRequired);
        }
        if row.state == Completed && row.solId != Some(order.solId) {
          return Err(Conflict);
        }
      } else if row.state != ReconciliationRequired {
        return Err(Conflict);
      }
      audits := audits[order.key := Audit(cycle, order)];
      ops := ops[cycle := Resolve(row, order, now)];
      result := Ok(true);
    }
  }
}
