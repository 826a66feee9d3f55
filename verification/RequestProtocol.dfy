/** Runs of the Request protocol: any number of invocations of `create_request_for_cycle` and
    `recover_mapping_missing_request`, interleaved at every transaction and every POST, with crashes,
    time, a changing database around them, and operators who reconcile.

    An invocation is a natural number; `ownerOf` gives the claim owner string it writes. */
module RequestProtocol {
  import opened Common
  import opened RequestProvider
  import opened RequestOperations

  /** Where an invocation stands between two of its transactions or POSTs. `Posting(k, ...)` is about
      to make POST number k; `posted` says that the outcome comes from a provider call. */
  datatype Pc =
    | Entered
    | Claimed
    | Loaded(payload: Payload)
    | Blocking(confidence: Confidence)
    | Cleared(payload: Payload, confidence: Confidence)
    | Refreshed
    | Armed(maxAttempts: nat, hasToken: bool)
    | Posting(attempt: nat, maxAttempts: nat, hasToken: bool)
    | Finishing(outcome: Outcome, posted: bool)
    | Recovering
    | Reopened
    | Gone

  datatype Worker = Worker(cycle: nat, pc: Pc)

  /** What an observer of the provider and of the tables sees. Recorded is a retryable finish that a
      claim holder recorded after its own marker. */
  datatype Event =
    | Marked(cycle: nat, worker: nat, confidence: Confidence)
    | Sent(cycle: nat, worker: nat, reply: Reply)
    | Recorded(cycle: nat, worker: nat)
    | Released(cycle: nat, key: string)

  datatype Sys = Sys(db: Db, workers: map<nat, Worker>, log: seq<Event>, now: int)

  datatype Step =
    | Enter(w: nat, cycle: nat, facts: CycleFacts, mapping: Option<MappingFacts>, directory: DirectoryFacts)
    | ClaimRow(w: nat, lease: int)
    | LoadPayload(w: nat, loaded: Option<Payload>)
    | ReadConfidence(w: nat, confidence: Confidence)
    | BlockConfidence(w: nat)
    | RefreshRow(w: nat)
    | SetUpProvider(w: nat, ready: bool, maxAttempts: nat, hasToken: bool)
    | MarkRow(w: nat, confidence: Confidence)
    | Post(w: nat, reply: Reply)
    | ReturnUnsent(w: nat)
    | ProviderRaises(w: nat)
    | FinishRow(w: nat)
    | Crash(w: nat)
    | ClaimForRecovery(w: nat, cycle: nat, lease: int)
    | BlockRecovery(w: nat, stage: string, reason: string)
    | ReopenRow(w: nat, facts: CycleFacts, mapping: Option<MappingFacts>, directory: DirectoryFacts)
    | Operate(cycle: nat, order: Order)
    | Tick(elapsed: nat)

  const Start := Sys(Db(map[], map[]), map[], [], 0)

  function Move(s: Sys, w: nat, pc: Pc): Sys
    requires w in s.workers
  {
    s.(workers := s.workers[w := s.workers[w].(pc := pc)])
  }

  function Put(s: Sys, cycle: nat, op: Operation): Sys { s.(db := With(s.db, cycle, op)) }

  function Log(s: Sys, e: Event): Sys { s.(log := s.log + [e]) }

  predicate At(s: Sys, w: nat) {
    w in s.workers && s.workers[w].cycle in s.db.ops
  }

  predicate MayEnter(s: Sys, w: nat, cycle: nat) {
    w !in s.workers || s.workers[w] == Worker(cycle, Reopened)
  }

  function EnterStep(s: Sys, w: nat, cycle: nat, row: Operation): Sys {
    var op := if cycle in s.db.ops then s.db.ops[cycle] else row;
    Put(s, cycle, op).(workers := s.workers[w := Worker(cycle, if Claimable(op.state) then Entered else Gone)])
  }

  /** One provider POST by an invocation at `Posting`. */
  function PostStep(s: Sys, w: nat, reply: Reply): Sys
    requires w in s.workers && s.workers[w].pc.Posting?
  {
    var Worker(cycle, pc) := s.workers[w];
    var d := Decide(pc.attempt, pc.maxAttempts, reply);
    Log(Move(s, w, if d.Again? then pc.(attempt := pc.attempt + 1) else Finishing(d.outcome, true)),
        Sent(cycle, w, reply))
  }

  function MarkStep(s: Sys, w: nat, owner: string, c: Confidence): Sys
    requires At(s, w) && s.workers[w].pc.Armed?
  {
    var Worker(cycle, pc) := s.workers[w];
    var (op, mayPost) := Mark(s.db.ops[cycle], owner, c, s.now);
    if mayPost then
      Log(Move(Put(s, cycle, op), w, Posting(1, pc.maxAttempts, pc.hasToken)), Marked(cycle, w, c))
    else Move(Put(s, cycle, op), w, Gone)
  }

  function FinishStep(s: Sys, w: nat, owner: string): Sys
    requires At(s, w) && s.workers[w].pc.Finishing?
  {
    var Worker(cycle, pc) := s.workers[w];
    var (op, recorded) := Finish(s.db.ops[cycle], owner, pc.outcome, s.now);
    var next := Move(Put(s, cycle, op), w, Gone);
    if recorded && pc.posted && pc.outcome.state == RetryableFailure then Log(next, Recorded(cycle, w))
    else next
  }

  function OperateStep(s: Sys, cycle: nat, order: Order): Sys {
    var next := s.(db := Reconciled(s.db, cycle, order, s.now));
    if Verdict(s.db, cycle, order) == Ok(true) && order.Release? then Log(next, Released(cycle, order.key)) else next
  }

  /** One step; a step whose invocation is not at the matching place changes nothing. */
  function Apply(ownerOf: nat -> string, s: Sys, step: Step): Sys {
    match step
    case Enter(w, cycle, facts, mapping, directory) =>
      if MayEnter(s, w, cycle) then EnterStep(s, w, cycle, Fresh(facts, OperationState(facts, mapping, directory)))
      else s
    case ClaimRow(w, lease) =>
      if At(s, w) && s.workers[w].pc.Entered? then
        var cycle := s.workers[w].cycle;
        var (op, claimed) := Claim(s.db.ops[cycle], ownerOf(w), lease, s.now);
        Move(Put(s, cycle, op), w, if claimed then Claimed else Gone)
      else s
    case LoadPayload(w, loaded) =>
      if At(s, w) && s.workers[w].pc.Claimed? then
        Move(s, w, if loaded.Some? then Loaded(loaded.value)
                   else Finishing(Retryable("payload_load_failed", None), false))
      else s
    case ReadConfidence(w, c) =>
      if At(s, w) && s.workers[w].pc.Loaded? then
        Move(s, w, if EvaluateConfidence(c) == Allowed then Cleared(s.workers[w].pc.payload, c) else Blocking(c))
      else s
    case BlockConfidence(w) =>
      if At(s, w) && s.workers[w].pc.Blocking? then
        var Worker(cycle, pc) := s.workers[w];
        Move(Put(s, cycle, FinishBlocked(s.db.ops[cycle], ownerOf(w), pc.confidence)), w, Gone)
      else s
    case RefreshRow(w) =>
      if At(s, w) && s.workers[w].pc.Cleared? then
        var Worker(cycle, pc) := s.workers[w];
        Move(Put(s, cycle, Refresh(s.db.ops[cycle], ownerOf(w), pc.payload, pc.confidence).0), w, Refreshed)
      else s
    case SetUpProvider(w, ready, maxAttempts, hasToken) =>
      if At(s, w) && s.workers[w].pc.Refreshed? then
        Move(s, w, if ready && maxAttempts > 0 then Armed(maxAttempts, hasToken)
                   else Finishing(Retryable("provider_setup_failed", None), false))
      else s
    case MarkRow(w, c) =>
      if At(s, w) && s.workers[w].pc.Armed? then MarkStep(s, w, ownerOf(w), c) else s
    case Post(w, reply) =>
      if At(s, w) && s.workers[w].pc.Posting? && s.workers[w].pc.hasToken then PostStep(s, w, reply) else s
    case ReturnUnsent(w) =>
      if At(s, w) && s.workers[w].pc.Posting? && !s.workers[w].pc.hasToken then
        Move(s, w, Finishing(Definitive("missing_credentials", None), true))
      else s
    case ProviderRaises(w) =>
      if At(s, w) && s.workers[w].pc.Posting? then
        Move(s, w, Finishing(Reconcile("provider_exception", None), true))
      else s
    case FinishRow(w) =>
      if At(s, w) && s.workers[w].pc.Finishing? then FinishStep(s, w, ownerOf(w)) else s
    case Crash(w) =>
      if At(s, w) then Move(s, w, Gone) else s
    case ClaimForRecovery(w, cycle, lease) =>
      if w !in s.workers && cycle in s.db.ops then
        var (op, claimed) := ClaimRecovery(s.db.ops[cycle], ownerOf(w), lease, s.now);
        Put(s, cycle, op).(workers := s.workers[w := Worker(cycle, if claimed then Recovering else Gone)])
      else s
    case BlockRecovery(w, stage, reason) =>
      if At(s, w) && s.workers[w].pc.Recovering? then
        var cycle := s.workers[w].cycle;
        Move(Put(s, cycle, RecordBlocked(s.db.ops[cycle], ownerOf(w), stage, reason).0), w, Gone)
      else s
    case ReopenRow(w, facts, mapping, directory) =>
      if At(s, w) && s.workers[w].pc.Recovering? then
        var cycle := s.workers[w].cycle;
        var (op, reopened) := Reopen(s.db.ops[cycle], ownerOf(w), OperationState(facts, mapping, directory));
        Move(Put(s, cycle, op), w, if reopened then Reopened else Gone)
      else s
    case Operate(cycle, order) => OperateStep(s, cycle, order)
    case Tick(elapsed) => s.(now := s.now + elapsed)
  }

  function Run(ownerOf: nat -> string, s: Sys, steps: seq<Step>): Sys
    decreases |steps|
  {
    if steps == [] then s else Apply(ownerOf, Run(ownerOf, s, steps[..|steps| - 1]), steps[|steps| - 1])
  }

  /** The invocations that have come in write distinct owner strings. */
  ghost predicate Distinct(ownerOf: nat -> string, workers: map<nat, Worker>) {
    forall a, b :: a in workers && b in workers && ownerOf(a) == ownerOf(b) ==> a == b
  }

  /** No invocation is forgotten. */
  lemma WorkersGrow(ownerOf: nat -> string, s: Sys, step: Step)
    ensures forall w :: w in s.workers ==> w in Apply(ownerOf, s, step).workers
  {
    hide Decide, Fresh, OperationState, EvaluateConfidence, Claim, Mark, Finish, Refresh, Reopen, ClaimRecovery;
  }

  /** The owners are distinct among the invocations of a run, then, at every point of it. */
  lemma DistinctBefore(ownerOf: nat -> string, s: Sys, steps: seq<Step>)
    requires steps != [] && Distinct(ownerOf, Run(ownerOf, s, steps).workers)
    ensures Distinct(ownerOf, Run(ownerOf, s, steps[..|steps| - 1]).workers)
  {
    WorkersGrow(ownerOf, Run(ownerOf, s, steps[..|steps| - 1]), steps[|steps| - 1]);
  }

  // ---- Counting ----------------------------------------------------------------------------

  /** For one cycle: markers, recorded retryable finishes, releases, and POSTs that may have created
      a Request. */
  datatype Counts = Counts(marks: nat, recorded: nat, released: nat, unproven: nat)

  function Counted(n: Counts, e: Event, cycle: nat): Counts {
    if e.cycle != cycle then n
    else match e
      case Marked(_, _, _) => n.(marks := n.marks + 1)
      case Recorded(_, _) => n.(recorded := n.recorded + 1)
      case Released(_, _) => n.(released := n.released + 1)
      case Sent(_, _, reply) => if ProvenUnsent(reply) then n else n.(unproven := n.unproven + 1)
  }

  function Tally(log: seq<Event>, cycle: nat): Counts {
    if log == [] then Counts(0, 0, 0, 0)
    else Counted(Tally(log[..|log| - 1], cycle), log[|log| - 1], cycle)
  }

  lemma TallyAppend(log: seq<Event>, e: Event, cycle: nat)
    ensures Tally(log + [e], cycle) == Counted(Tally(log, cycle), e, cycle)
  {
    assert (log + [e])[..|log|] == log;
  }

  /** Invocations that may still record a retryable finish or make a POST. */
  predicate HoldsCall(pc: Pc) {
    pc.Posting? || (pc.Finishing? && pc.posted && pc.outcome.state == RetryableFailure)
  }

  ghost function Callers(workers: map<nat, Worker>, cycle: nat): set<nat> {
    set w | w in workers && workers[w].cycle == cycle && HoldsCall(workers[w].pc)
  }

  function One(b: bool): nat { if b then 1 else 0 }

  /** An invocation that has not set its marker. */
  predicate Unmarked(pc: Pc) {
    !(pc.Posting? || (pc.Finishing? && pc.posted) || pc.Gone?)
  }

  lemma WithoutOne(a: set<nat>, w: nat)
    ensures |a| == |a - {w}| + One(w in a)
  {
    if w in a { assert a == a - {w} + {w}; } else { assert a == a - {w}; }
  }

  lemma CallersAfter(workers: map<nat, Worker>, w: nat, next: Worker, cycle: nat)
    ensures var holding := w in workers && workers[w].cycle == cycle && HoldsCall(workers[w].pc);
            var holds := next.cycle == cycle && HoldsCall(next.pc);
            |Callers(workers[w := next], cycle)| == |Callers(workers, cycle)| - One(holding) + One(holds)
  {
    var before, after := Callers(workers, cycle), Callers(workers[w := next], cycle);
    assert before - {w} == after - {w};
    WithoutOne(before, w);
    WithoutOne(after, w);
  }
}
