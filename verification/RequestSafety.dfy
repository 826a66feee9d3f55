/** Safety of every run of the Request protocol: how many POSTs may have created a Request, how many
    markers are set, and which rows can be reached. */
module RequestSafety {
  import opened Common
  import opened RequestProvider
  import opened RequestOperations
  import opened RequestProtocol

  // ---- The invariant -----------------------------------------------------------------------

  ghost predicate RowOk(op: Operation, n: Counts) {
    && op.attempts == n.marks
    && (op.solId.Some? <==> op.state == Completed)
    && (op.solId.Some? ==> SafeSolId(op.solId.value))
    && (op.postStarted.Some? <==> n.marks > 0)
    && (op.firstAttempt.Some? <==> n.marks > 0)
    && (op.lastAttempt.Some? <==> n.marks > 0)
    && (op.completedAt.Some? <==> op.state == Completed)
    && (op.state in {Completed, ReconciliationRequired} ==> n.marks > 0)
    && (op.state == NotStarted ==> n.marks == 0)
    && (op.state == Attempting ==> op.owner.Some? && op.expires.Some?)
  }

  /** Every marker but one is paid for, and all of them are while a new one may still come. */
  ghost predicate Budget(ownerOf: nat -> string, op: Operation, n: Counts, workers: map<nat, Worker>, cycle: nat) {
    && n.marks <= 1 + n.recorded + n.released
    && (Claimable(op.state) ==> n.marks <= n.recorded + n.released)
    && (forall w :: w in workers && workers[w].cycle == cycle && Unmarked(workers[w].pc) && HeldBy(op, ownerOf(w))
          ==> n.marks <= n.recorded + n.released)
  }

  ghost predicate CycleOk(ownerOf: nat -> string, s: Sys, cycle: nat) {
    var n := Tally(s.log, cycle);
    if cycle in s.db.ops then
      && RowOk(s.db.ops[cycle], n)
      && Budget(ownerOf, s.db.ops[cycle], n, s.workers, cycle)
      && n.unproven + n.recorded + |Callers(s.workers, cycle)| <= n.marks
    else n == Counts(0, 0, 0, 0)
  }

  ghost predicate WorkerOk(s: Sys, w: nat)
    requires w in s.workers
  {
    var Worker(cycle, pc) := s.workers[w];
    && cycle in s.db.ops
    && (pc.Armed? ==> pc.maxAttempts > 0)
    && (pc.Posting? ==> 1 <= pc.attempt <= pc.maxAttempts)
    && (pc.Finishing? ==> WellFormed(pc.outcome) && (pc.posted || pc.outcome.state == RetryableFailure))
    && (pc.Posting? || (pc.Finishing? && pc.posted) ==> s.db.ops[cycle].postStarted.Some?)
  }

  ghost predicate Inv(ownerOf: nat -> string, s: Sys) {
    && (forall w :: w in s.workers ==> WorkerOk(s, w))
    && (forall cycle :: CycleOk(ownerOf, s, cycle))
  }

  // ---- One step changes one cycle ----------------------------------------------------------

  /** `t` differs from `s` only in invocation `w`, in the row of `cycle`, and by one event of `cycle`. */
  ghost predicate Near(s: Sys, t: Sys, w: nat, cycle: nat) {
    && (t.workers == s.workers
        || (&& w in t.workers && t.workers == s.workers[w := t.workers[w]] && t.workers[w].cycle == cycle
            && (w in s.workers ==> s.workers[w].cycle == cycle)))
    && (t.db.ops == s.db.ops || (cycle in t.db.ops && t.db.ops == s.db.ops[cycle := t.db.ops[cycle]]))
    && (cycle in s.db.ops && s.db.ops[cycle].postStarted.Some? ==> t.db.ops[cycle].postStarted.Some?)
    && (t.log == s.log || exists e: Event :: e.cycle == cycle && t.log == s.log + [e])
  }

  lemma OthersKept(ownerOf: nat -> string, s: Sys, t: Sys, w: nat, cycle: nat, other: nat)
    requires Near(s, t, w, cycle) && other != cycle && CycleOk(ownerOf, s, other)
    ensures CycleOk(ownerOf, t, other)
  {
    if t.log != s.log {
      var e: Event :| e.cycle == cycle && t.log == s.log + [e];
      TallyAppend(s.log, e, other);
    }
    assert Callers(t.workers, other) == Callers(s.workers, other);
  }

  lemma Assemble(ownerOf: nat -> string, s: Sys, t: Sys, w: nat, cycle: nat)
    requires Inv(ownerOf, s) && Near(s, t, w, cycle)
    requires cycle in t.db.ops && CycleOk(ownerOf, t, cycle)
    requires w in t.workers && t.workers != s.workers ==> WorkerOk(t, w)
    ensures Inv(ownerOf, t)
  {
    forall other ensures CycleOk(ownerOf, t, other) {
      if other != cycle { OthersKept(ownerOf, s, t, w, cycle, other); }
    }
    forall v | v in t.workers ensures WorkerOk(t, v) {
      if v != w || t.workers == s.workers { assert WorkerOk(s, v); }
    }
  }

  /** A move that neither touches the tables nor gains a right. */
  lemma MoveKept(ownerOf: nat -> string, s: Sys, w: nat, pc: Pc)
    requires Inv(ownerOf, s) && At(s, w)
    requires HoldsCall(pc) ==> HoldsCall(s.workers[w].pc)
    requires Unmarked(pc) ==> Unmarked(s.workers[w].pc)
    requires WorkerOk(Move(s, w, pc), w)
    ensures Inv(ownerOf, Move(s, w, pc))
  {
    var cycle, t := s.workers[w].cycle, Move(s, w, pc);
    CallersAfter(s.workers, w, Worker(cycle, pc), cycle);
    assert CycleOk(ownerOf, s, cycle);
    Assemble(ownerOf, s, t, w, cycle);
  }

  /** A row update by invocation `w` that sets no marker and leaves the log alone. */
  lemma RowKept(ownerOf: nat -> string, s: Sys, w: nat, cycle: nat, op: Operation, next: Worker)
    requires Inv(ownerOf, s) && cycle in s.db.ops
    requires next.cycle == cycle && (w in s.workers ==> s.workers[w].cycle == cycle)
    requires var t := Put(s, cycle, op).(workers := s.workers[w := next]);
             var n := Tally(s.log, cycle);
             && RowOk(op, n) && Budget(ownerOf, op, n, t.workers, cycle) && WorkerOk(t, w)
    requires !HoldsCall(next.pc)
    ensures Inv(ownerOf, Put(s, cycle, op).(workers := s.workers[w := next]))
  {
    var t := Put(s, cycle, op).(workers := s.workers[w := next]);
    CallersAfter(s.workers, w, next, cycle);
    assert CycleOk(ownerOf, s, cycle);
    Assemble(ownerOf, s, t, w, cycle);
  }

  // ---- The steps ---------------------------------------------------------------------------

  lemma EnterKept(ownerOf: nat -> string, s: Sys, w: nat, cycle: nat, row: Operation)
    requires Inv(ownerOf, s) && MayEnter(s, w, cycle)
    requires RowOk(row, Counts(0, 0, 0, 0)) && row.state in {NotStarted, DefinitiveFailure}
    ensures Inv(ownerOf, EnterStep(s, w, cycle, row))
  {
    var t := EnterStep(s, w, cycle, row);
    assert CycleOk(ownerOf, s, cycle);
    CallersAfter(s.workers, w, t.workers[w], cycle);
    if cycle !in s.db.ops {
      assert forall v :: v in s.workers ==> WorkerOk(s, v);
      assert Callers(s.workers, cycle) == {};
    }
    Assemble(ownerOf, s, t, w, cycle);
  }

  lemma ClaimKept(ownerOf: nat -> string, s: Sys, w: nat, lease: int)
    requires Distinct(ownerOf, s.workers) && Inv(ownerOf, s)
    ensures Inv(ownerOf, Apply(ownerOf, s, ClaimRow(w, lease)))
  {
    if At(s, w) && s.workers[w].pc.Entered? {
      var cycle := s.workers[w].cycle;
      var (op, claimed) := Claim(s.db.ops[cycle], ownerOf(w), lease, s.now);
      assert CycleOk(ownerOf, s, cycle);
      var next := Worker(cycle, if claimed then Claimed else Gone);
      RowKept(ownerOf, s, w, cycle, op, next);
      assert Apply(ownerOf, s, ClaimRow(w, lease)) == Put(s, cycle, op).(workers := s.workers[w := next]);
    }
  }

  lemma BlockKept(ownerOf: nat -> string, s: Sys, w: nat)
    requires Inv(ownerOf, s)
    ensures Inv(ownerOf, Apply(ownerOf, s, BlockConfidence(w)))
  {
    if At(s, w) && s.workers[w].pc.Blocking? {
      var Worker(cycle, pc) := s.workers[w];
      assert CycleOk(ownerOf, s, cycle);
      RowKept(ownerOf, s, w, cycle, FinishBlocked(s.db.ops[cycle], ownerOf(w), pc.confidence), Worker(cycle, Gone));
    }
  }

  lemma RefreshKept(ownerOf: nat -> string, s: Sys, w: nat)
    requires Inv(ownerOf, s)
    ensures Inv(ownerOf, Apply(ownerOf, s, RefreshRow(w)))
  {
    if At(s, w) && s.workers[w].pc.Cleared? {
      var Worker(cycle, pc) := s.workers[w];
      assert CycleOk(ownerOf, s, cycle);
      RowKept(ownerOf, s, w, cycle,
              Refresh(s.db.ops[cycle], ownerOf(w), pc.payload, pc.confidence).0, Worker(cycle, Refreshed));
    }
  }

  lemma RecoveryKept(ownerOf: nat -> string, s: Sys, w: nat, cycle: nat, lease: int)
    requires Inv(ownerOf, s)
    ensures Inv(ownerOf, Apply(ownerOf, s, ClaimForRecovery(w, cycle, lease)))
  {
    if w !in s.workers && cycle in s.db.ops {
      var (op, claimed) := ClaimRecovery(s.db.ops[cycle], ownerOf(w), lease, s.now);
      assert CycleOk(ownerOf, s, cycle);
      RowKept(ownerOf, s, w, cycle, op, Worker(cycle, if claimed then Recovering else Gone));
    }
  }

  lemma BlockRecoveryKept(ownerOf: nat -> string, s: Sys, w: nat, stage: string, reason: string)
    requires Inv(ownerOf, s)
    ensures Inv(ownerOf, Apply(ownerOf, s, BlockRecovery(w, stage, reason)))
  {
    if At(s, w) && s.workers[w].pc.Recovering? {
      var cycle := s.workers[w].cycle;
      assert CycleOk(ownerOf, s, cycle);
      RowKept(ownerOf, s, w, cycle, RecordBlocked(s.db.ops[cycle], ownerOf(w), stage, reason).0, Worker(cycle, Gone));
    }
  }

  lemma ReopenKept(ownerOf: nat -> string, s: Sys, w: nat, e: Eligibility)
    requires Inv(ownerOf, s) && At(s, w) && s.workers[w].pc.Recovering?
    ensures var cycle := s.workers[w].cycle;
            var (op, reopened) := Reopen(s.db.ops[cycle], ownerOf(w), e);
            Inv(ownerOf, Move(Put(s, cycle, op), w, if reopened then Reopened else Gone))
  {
    var cycle := s.workers[w].cycle;
    var (op, reopened) := Reopen(s.db.ops[cycle], ownerOf(w), e);
    assert CycleOk(ownerOf, s, cycle);
    RowKept(ownerOf, s, w, cycle, op, Worker(cycle, if reopened then Reopened else Gone));
  }

  lemma MarkKept(ownerOf: nat -> string, s: Sys, w: nat, c: Confidence)
    requires Distinct(ownerOf, s.workers) && Inv(ownerOf, s) && At(s, w) && s.workers[w].pc.Armed?
    ensures Inv(ownerOf, MarkStep(s, w, ownerOf(w), c))
  {
    hide EvaluateConfidence, GateReason;
    var Worker(cycle, pc) := s.workers[w];
    var t := MarkStep(s, w, ownerOf(w), c);
    assert WorkerOk(s, w);
    assert CycleOk(ownerOf, s, cycle);
    if t.log == s.log {
      RowKept(ownerOf, s, w, cycle, t.db.ops[cycle], Worker(cycle, Gone));
    } else {
      TallyAppend(s.log, Marked(cycle, w, c), cycle);
      CallersAfter(s.workers, w, t.workers[w], cycle);
      assert t.log == s.log + [Marked(cycle, w, c)];
      Assemble(ownerOf, s, t, w, cycle);
    }
  }

  lemma PostKept(ownerOf: nat -> string, s: Sys, w: nat, reply: Reply)
    requires Inv(ownerOf, s) && At(s, w) && s.workers[w].pc.Posting?
    ensures Inv(ownerOf, PostStep(s, w, reply))
  {
    var Worker(cycle, pc) := s.workers[w];
    var t := PostStep(s, w, reply);
    assert WorkerOk(s, w) && CycleOk(ownerOf, s, cycle);
    ReplyMeaning(pc.attempt, pc.maxAttempts, reply);
    TallyAppend(s.log, Sent(cycle, w, reply), cycle);
    CallersAfter(s.workers, w, t.workers[w], cycle);
    assert t.log == s.log + [Sent(cycle, w, reply)];
    Assemble(ownerOf, s, t, w, cycle);
  }

  lemma FinishKept(ownerOf: nat -> string, s: Sys, w: nat)
    requires Inv(ownerOf, s) && At(s, w) && s.workers[w].pc.Finishing?
    ensures Inv(ownerOf, FinishStep(s, w, ownerOf(w)))
  {
    var Worker(cycle, pc) := s.workers[w];
    var t := FinishStep(s, w, ownerOf(w));
    assert WorkerOk(s, w) && CycleOk(ownerOf, s, cycle);
    if t.log == s.log {
      RowKept(ownerOf, s, w, cycle, t.db.ops[cycle], Worker(cycle, Gone));
    } else {
      TallyAppend(s.log, Recorded(cycle, w), cycle);
      CallersAfter(s.workers, w, t.workers[w], cycle);
      assert t.log == s.log + [Recorded(cycle, w)];
      Assemble(ownerOf, s, t, w, cycle);
    }
  }

  lemma OperateKept(ownerOf: nat -> string, s: Sys, cycle: nat, order: Order)
    requires Inv(ownerOf, s)
    ensures Inv(ownerOf, OperateStep(s, cycle, order))
  {
    if Verdict(s.db, cycle, order) == Ok(true) {
      assert CycleOk(ownerOf, s, cycle);
      if order.Release? { TallyAppend(s.log, Released(cycle, order.key), cycle); }
      Assemble(ownerOf, s, OperateStep(s, cycle, order), 0, cycle);
    }
  }

  lemma StepKept(ownerOf: nat -> string, s: Sys, step: Step)
    requires Distinct(ownerOf, s.workers) && Inv(ownerOf, s)
    ensures Inv(ownerOf, Apply(ownerOf, s, step))
  {
    if !step.Operate? && !step.Tick? && At(s, step.w) { assert WorkerOk(s, step.w); }
    match step
    case Enter(w, cycle, facts, mapping, directory) =>
      if MayEnter(s, w, cycle) {
        EnterKept(ownerOf, s, w, cycle, Fresh(facts, OperationState(facts, mapping, directory)));
      }
    case ClaimRow(w, lease) => ClaimKept(ownerOf, s, w, lease);
    case BlockConfidence(w) => BlockKept(ownerOf, s, w);
    case RefreshRow(w) => RefreshKept(ownerOf, s, w);
    case MarkRow(w, c) => if At(s, w) && s.workers[w].pc.Armed? { MarkKept(ownerOf, s, w, c); }
    case Post(w, reply) =>
      if At(s, w) && s.workers[w].pc.Posting? && s.workers[w].pc.hasToken { PostKept(ownerOf, s, w, reply); }
    case FinishRow(w) => if At(s, w) && s.workers[w].pc.Finishing? { FinishKept(ownerOf, s, w); }
    case ClaimForRecovery(w, cycle, lease) => RecoveryKept(ownerOf, s, w, cycle, lease);
    case BlockRecovery(w, stage, reason) => BlockRecoveryKept(ownerOf, s, w, stage, reason);
    case ReopenRow(w, facts, mapping, directory) =>
      if At(s, w) && s.workers[w].pc.Recovering? {
        ReopenKept(ownerOf, s, w, OperationState(facts, mapping, directory));
      }
    case Operate(cycle, order) => OperateKept(ownerOf, s, cycle, order);
    case Tick(elapsed) => TickKept(ownerOf, s, elapsed);
    case _ => LocalKept(ownerOf, s, step);
  }

  lemma TickKept(ownerOf: nat -> string, s: Sys, elapsed: nat)
    requires Inv(ownerOf, s)
    ensures Inv(ownerOf, s.(now := s.now + elapsed))
  {
    var t := s.(now := s.now + elapsed);
    forall cycle ensures CycleOk(ownerOf, t, cycle) { assert CycleOk(ownerOf, s, cycle); }
    forall w | w in t.workers ensures WorkerOk(t, w) { assert WorkerOk(s, w); }
  }

  /** The steps that only move their invocation. */
  lemma LocalKept(ownerOf: nat -> string, s: Sys, step: Step)
    requires Inv(ownerOf, s)
    requires step.LoadPayload? || step.ReadConfidence? || step.SetUpProvider? || step.ReturnUnsent?
             || step.ProviderRaises? || step.Crash?
    ensures Inv(ownerOf, Apply(ownerOf, s, step))
  {
    var t := Apply(ownerOf, s, step);
    if t != s {
      assert WorkerOk(s, step.w);
      MoveKept(ownerOf, s, step.w, t.workers[step.w].pc);
    }
  }

  /** The invariant holds after every run of invocations with distinct owners, whatever the interleaving. */
  lemma {:induction false} RunKept(ownerOf: nat -> string, steps: seq<Step>)
    requires Distinct(ownerOf, Run(ownerOf, Start, steps).workers)
    ensures Inv(ownerOf, Run(ownerOf, Start, steps))
  {
    if steps == [] {
    } else {
      DistinctBefore(ownerOf, Start, steps);
      RunKept(ownerOf, steps[..|steps| - 1]);
      StepKept(ownerOf, Run(ownerOf, Start, steps[..|steps| - 1]), steps[|steps| - 1]);
    }
  }
}
