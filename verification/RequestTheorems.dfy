/** The main results about runs of the Request protocol. */
module RequestTheorems {
  import opened Common
  import opened RequestProvider
  import opened RequestOperations
  import opened RequestProtocol
  import opened RequestSafety

  // ---- The log ------------------------------------------------------------------------------

  /** A step adds at most one event, and only the matching step of the matching invocation adds it. */
  lemma LogGrows(ownerOf: nat -> string, s: Sys, step: Step)
    ensures var t := Apply(ownerOf, s, step);
            || t.log == s.log
            || exists e :: t.log == s.log + [e] && EventOf(s, step, e)
  {
    var t := Apply(ownerOf, s, step);
    if t.log != s.log {
      var e := t.log[|s.log|];
      assert t.log == s.log + [e] && EventOf(s, step, e);
    }
  }

  ghost predicate EventOf(s: Sys, step: Step, e: Event) {
    match e
    case Marked(cycle, w, c) =>
      step == MarkRow(w, c) && At(s, w) && s.workers[w].pc.Armed? && s.workers[w].cycle == cycle
      && EvaluateConfidence(c) == Allowed
    case Sent(cycle, w, reply) =>
      step == Post(w, reply) && At(s, w) && s.workers[w].pc.Posting? && s.workers[w].cycle == cycle
    case Recorded(cycle, w) =>
      step == FinishRow(w) && At(s, w) && s.workers[w].pc.Finishing? && s.workers[w].pc.posted
      && s.workers[w].cycle == cycle
    case Released(cycle, key) =>
      step.Operate? && step.cycle == cycle && step.order.Release? && Verdict(s.db, cycle, step.order) == Ok(true)
  }

  // ---- At most one POST may have created a Request -------------------------------------------

  /** Before any POST, the earlier POSTs of its cycle that may have created a Request are no more than
      the releases that an operator made with proof of remote absence. */
  ghost predicate PostsPaid(log: seq<Event>) {
    forall j :: 0 <= j < |log| && log[j].Sent? ==>
      Tally(log[..j], log[j].cycle).unproven <= Tally(log[..j], log[j].cycle).released
  }

  lemma PostsPaidAppend(log: seq<Event>, e: Event)
    requires PostsPaid(log)
    requires e.Sent? ==> Tally(log, e.cycle).unproven <= Tally(log, e.cycle).released
    ensures PostsPaid(log + [e])
  {
    var next := log + [e];
    forall j | 0 <= j < |next| && next[j].Sent?
      ensures Tally(next[..j], next[j].cycle).unproven <= Tally(next[..j], next[j].cycle).released
    {
      if j < |log| { assert next[..j] == log[..j] && next[j] == log[j]; } else { assert next[..j] == log; }
    }
  }

  lemma {:induction false} SubsetSize(a: set<nat>, b: set<nat>)
    requires a <= b
    ensures |a| <= |b|
  {
    assert b == a + (b - a);
  }

  /** The caller of a POST still holds its call, so its marker has not been spent. */
  lemma CallerPays(ownerOf: nat -> string, s: Sys, w: nat)
    requires Inv(ownerOf, s) && At(s, w) && s.workers[w].pc.Posting?
    ensures var n := Tally(s.log, s.workers[w].cycle); n.unproven <= n.released
  {
    var cycle := s.workers[w].cycle;
    assert CycleOk(ownerOf, s, cycle);
    assert w in Callers(s.workers, cycle);
    assert |Callers(s.workers, cycle)| >= |{w}| by { SubsetSize({w}, Callers(s.workers, cycle)); }
  }

  lemma {:induction false} EveryPostIsPaid(ownerOf: nat -> string, steps: seq<Step>)
    requires Distinct(ownerOf, Run(ownerOf, Start, steps).workers)
    ensures PostsPaid(Run(ownerOf, Start, steps).log)
  {
    if steps == [] {
    } else {
      var s := Run(ownerOf, Start, steps[..|steps| - 1]);
      var step := steps[|steps| - 1];
      DistinctBefore(ownerOf, Start, steps);
      EveryPostIsPaid(ownerOf, steps[..|steps| - 1]);
      RunKept(ownerOf, steps[..|steps| - 1]);
      LogGrows(ownerOf, s, step);
      var t := Apply(ownerOf, s, step);
      if t.log != s.log {
        var e :| t.log == s.log + [e] && EventOf(s, step, e);
        if e.Sent? { CallerPays(ownerOf, s, e.worker); }
        PostsPaidAppend(s.log, e);
      }
    }
  }

  lemma {:induction false} UnprovenCounted(log: seq<Event>, cycle: nat, i: nat)
    requires i < |log| && log[i].Sent? && log[i].cycle == cycle && !ProvenUnsent(log[i].reply)
    ensures Tally(log, cycle).unproven >= 1
  {
    if i < |log| - 1 { UnprovenCounted(log[..|log| - 1], cycle, i); }
  }

  lemma {:induction false} NoneReleased(log: seq<Event>, cycle: nat)
    requires forall k :: 0 <= k < |log| ==> !(log[k].Released? && log[k].cycle == cycle)
    ensures Tally(log, cycle).released == 0
  {
    if log != [] { NoneReleased(log[..|log| - 1], cycle); }
  }

  /** Without a release, a POST that may have created the Request is the last POST of its cycle,
      over every interleaving of invocations, crashes and lease expiries. */
  lemma NoSecondSideEffect(ownerOf: nat -> string, steps: seq<Step>, i: nat, j: nat)
    requires Distinct(ownerOf, Run(ownerOf, Start, steps).workers)
    requires var log := Run(ownerOf, Start, steps).log;
             && i < j < |log| && log[i].Sent? && log[j].Sent? && log[i].cycle == log[j].cycle
             && (forall k :: 0 <= k < j ==> !(log[k].Released? && log[k].cycle == log[j].cycle))
    ensures ProvenUnsent(Run(ownerOf, Start, steps).log[i].reply)
  {
    var log := Run(ownerOf, Start, steps).log;
    EveryPostIsPaid(ownerOf, steps);
    NoneReleased(log[..j], log[j].cycle);
    if !ProvenUnsent(log[i].reply) { UnprovenCounted(log[..j], log[j].cycle, i); }
  }

  // ---- Conservation ---------------------------------------------------------------------------

  ghost function ReleaseRows(db: Db, cycle: nat): set<string> {
    set key | key in db.audits && db.audits[key].cycle == cycle && db.audits[key].order.Release?
  }

  lemma ReleaseRowsStep(ownerOf: nat -> string, s: Sys, step: Step, cycle: nat)
    requires |ReleaseRows(s.db, cycle)| == Tally(s.log, cycle).released
    ensures var t := Apply(ownerOf, s, step); |ReleaseRows(t.db, cycle)| == Tally(t.log, cycle).released
  {
    if step.Operate? {
      if Verdict(s.db, step.cycle, step.order) == Ok(true) {
        OperateRows(s, step.cycle, step.order, cycle);
        if step.order.Release? { TallyAppend(s.log, Released(step.cycle, step.order.key), cycle); }
      }
    } else {
      OnlyOrdersAudit(ownerOf, s, step, cycle);
    }
  }

  lemma OnlyOrdersWriteAudits(ownerOf: nat -> string, s: Sys, step: Step)
    requires !step.Operate?
    ensures Apply(ownerOf, s, step).db.audits == s.db.audits
  {
  }

  lemma OnlyOrdersAudit(ownerOf: nat -> string, s: Sys, step: Step, cycle: nat)
    requires !step.Operate?
    ensures var t := Apply(ownerOf, s, step);
            t.db.audits == s.db.audits && Tally(t.log, cycle).released == Tally(s.log, cycle).released
  {
    hide Apply;
    var t := Apply(ownerOf, s, step);
    OnlyOrdersWriteAudits(ownerOf, s, step);
    LogGrows(ownerOf, s, step);
    if t.log != s.log {
      var e :| t.log == s.log + [e] && EventOf(s, step, e);
      TallyAppend(s.log, e, cycle);
    }
  }

  lemma OperateRows(s: Sys, cycle: nat, order: Order, other: nat)
    requires Verdict(s.db, cycle, order) == Ok(true)
    ensures |ReleaseRows(OperateStep(s, cycle, order).db, other)| ==
            |ReleaseRows(s.db, other)| + One(other == cycle && order.Release?)
  {
    var t := OperateStep(s, cycle, order);
    if other == cycle && order.Release? {
      assert ReleaseRows(t.db, other) == ReleaseRows(s.db, other) + {order.key};
    } else {
      assert ReleaseRows(t.db, other) == ReleaseRows(s.db, other);
    }
  }

  /** `attempt_count` is the number of markers set, and every marker beyond the first is paid for by a
      retryable finish that its holder recorded after its marker, or by a release row of the audit. */
  lemma {:induction false} AttemptsConserved(ownerOf: nat -> string, steps: seq<Step>, cycle: nat)
    requires Distinct(ownerOf, Run(ownerOf, Start, steps).workers)
    ensures var s := Run(ownerOf, Start, steps);
            var n := Tally(s.log, cycle);
            && n.released == |ReleaseRows(s.db, cycle)|
            && (cycle in s.db.ops ==>
                  s.db.ops[cycle].attempts == n.marks <= 1 + n.recorded + |ReleaseRows(s.db, cycle)|)
  {
    RunKept(ownerOf, steps);
    assert CycleOk(ownerOf, Run(ownerOf, Start, steps), cycle);
    if steps == [] {
      assert ReleaseRows(Start.db, cycle) == {};
    } else {
      DistinctBefore(ownerOf, Start, steps);
      AttemptsConserved(ownerOf, steps[..|steps| - 1], cycle);
      ReleaseRowsStep(ownerOf, Run(ownerOf, Start, steps[..|steps| - 1]), steps[|steps| - 1], cycle);
    }
  }

  // ---- What happens to a marked attempt ---------------------------------------------------------

  predicate Closed(op: Operation) {
    op.state in {ReconciliationRequired, Completed, DefinitiveFailure}
  }

  lemma NeverUnmarked(ownerOf: nat -> string, s: Sys, step: Step, v: nat)
    requires v in s.workers && !Unmarked(s.workers[v].pc)
    ensures var t := Apply(ownerOf, s, step);
            v in t.workers && !Unmarked(t.workers[v].pc) && t.workers[v].cycle == s.workers[v].cycle
  {
    hide Decide, Fresh, OperationState, EvaluateConfidence;
  }

  /** No step deletes a row. */
  lemma RowLasts(ownerOf: nat -> string, s: Sys, step: Step, cycle: nat)
    requires cycle in s.db.ops
    ensures cycle in Apply(ownerOf, s, step).db.ops
  {
  }

  /** What may become of a row that invocation `v` has marked. */
  ghost predicate Fate(ownerOf: nat -> string, s: Sys, step: Step, v: nat, cycle: nat)
    requires cycle in s.db.ops && cycle in Apply(ownerOf, s, step).db.ops
  {
    var t := Apply(ownerOf, s, step);
    var op, next := s.db.ops[cycle], t.db.ops[cycle];
    && next.postStarted.Some?
    && (HeldBy(op, ownerOf(v)) ==>
          || HeldBy(next, ownerOf(v))
          || (Expired(op, s.now) && next.state == ReconciliationRequired)
          || (step == FinishRow(v) && (Closed(next) || t.log == s.log + [Recorded(cycle, v)])))
    && (Closed(op) ==> Closed(next) || exists key :: t.log == s.log + [Released(cycle, key)])
  }

  lemma FinishFate(ownerOf: nat -> string, s: Sys, w: nat, v: nat, cycle: nat)
    requires Distinct(ownerOf, s.workers) && Inv(ownerOf, s)
    requires v in s.workers && !Unmarked(s.workers[v].pc)
    requires cycle in s.db.ops && s.db.ops[cycle].postStarted.Some?
    requires Closed(s.db.ops[cycle]) || HeldBy(s.db.ops[cycle], ownerOf(v))
    ensures Fate(ownerOf, s, FinishRow(w), v, cycle)
  {
    if w in s.workers { assert WorkerOk(s, w); }
  }

  /** A row that invocation `v` has marked leaves its hands in two ways only: `v` itself finishes it, or
      its lease has expired and it goes to reconciliation. A closed row opens again only by a release. */
  lemma MarkedAttemptFate(ownerOf: nat -> string, s: Sys, step: Step, v: nat, cycle: nat)
    requires Distinct(ownerOf, s.workers) && Inv(ownerOf, s)
    requires v in s.workers && !Unmarked(s.workers[v].pc)
    requires cycle in s.db.ops && s.db.ops[cycle].postStarted.Some?
    requires Closed(s.db.ops[cycle]) || HeldBy(s.db.ops[cycle], ownerOf(v))
    ensures cycle in Apply(ownerOf, s, step).db.ops && Fate(ownerOf, s, step, v, cycle)
  {
    hide Apply;
    RowLasts(ownerOf, s, step, cycle);
    assert CycleOk(ownerOf, s, cycle);
    match step
    case FinishRow(w) => FinishFate(ownerOf, s, w, v, cycle);
    case Operate(c, order) => OrderFate(ownerOf, s, c, order, v, cycle);
    case _ => QuietFate(ownerOf, s, step, cycle);
  }

  lemma OrderFate(ownerOf: nat -> string, s: Sys, c: nat, order: Order, v: nat, cycle: nat)
    requires cycle in s.db.ops && s.db.ops[cycle].postStarted.Some?
    ensures Fate(ownerOf, s, Operate(c, order), v, cycle)
  {
    hide Decide, Fresh, OperationState, EvaluateConfidence;
    var t := OperateStep(s, c, order);
    assert order.Release? && t.db.ops[cycle] != s.db.ops[cycle] ==> t.log == s.log + [Released(cycle, order.key)];
  }

  /** Every other step leaves a marked row as it was held, or finds its lease expired. */
  lemma QuietFate(ownerOf: nat -> string, s: Sys, step: Step, cycle: nat)
    requires Inv(ownerOf, s) && cycle in s.db.ops && s.db.ops[cycle].postStarted.Some?
    requires Closed(s.db.ops[cycle]) || s.db.ops[cycle].state == Attempting
    requires !step.FinishRow? && !step.Operate?
    ensures var t := Apply(ownerOf, s, step);
            var op, next := s.db.ops[cycle], t.db.ops[cycle];
            && next.postStarted.Some?
            && ((next.state == op.state && next.owner == op.owner)
                || (Expired(op, s.now) && next.state == ReconciliationRequired))
  {
    hide Decide, Fresh, OperationState, EvaluateConfidence;
    assert CycleOk(ownerOf, s, cycle);
  }

  // ---- Order of the markers ---------------------------------------------------------------------

  ghost predicate Settles(e: Event, m: Event)
    requires m.Marked?
  {
    e == Recorded(m.cycle, m.worker) || (e.Released? && e.cycle == m.cycle)
  }

  ghost predicate SettledBefore(log: seq<Event>, i: nat, end: nat)
    requires i < |log| && log[i].Marked? && end <= |log|
  {
    exists k :: i < k < end && Settles(log[k], log[i])
  }

  ghost predicate Pending(ownerOf: nat -> string, s: Sys, m: Event)
    requires m.Marked?
  {
    && m.cycle in s.db.ops && s.db.ops[m.cycle].postStarted.Some?
    && (Closed(s.db.ops[m.cycle]) || HeldBy(s.db.ops[m.cycle], ownerOf(m.worker)))
  }

  ghost predicate Ordered(ownerOf: nat -> string, s: Sys) {
    var log := s.log;
    && (forall i :: 0 <= i < |log| && log[i].Marked? ==>
          && log[i].worker in s.workers && !Unmarked(s.workers[log[i].worker].pc)
          && (SettledBefore(log, i, |log|) || Pending(ownerOf, s, log[i])))
    && (forall i, j :: 0 <= i < j < |log| && log[i].Marked? && log[j].Marked? && log[i].cycle == log[j].cycle ==>
          SettledBefore(log, i, j))
  }

  lemma SettledGrows(log: seq<Event>, e: Event, i: nat, end: nat)
    requires i < |log| && log[i].Marked? && end <= |log| && SettledBefore(log, i, end)
    ensures SettledBefore(log + [e], i, end) && SettledBefore(log + [e], i, |log| + 1)
  {
    var k :| i < k < end && Settles(log[k], log[i]);
    assert Settles((log + [e])[k], (log + [e])[i]);
  }

  /** One marker after one step: settled, or still pending. */
  lemma MarkerStep(ownerOf: nat -> string, s: Sys, step: Step, i: nat)
    requires Distinct(ownerOf, s.workers) && Inv(ownerOf, s) && Ordered(ownerOf, s)
    requires i < |s.log| && s.log[i].Marked?
    ensures var t := Apply(ownerOf, s, step);
            && |s.log| <= |t.log| && t.log[i] == s.log[i]
            && (SettledBefore(t.log, i, |t.log|) || Pending(ownerOf, t, t.log[i]))
  {
    hide Apply;
    var t := Apply(ownerOf, s, step);
    LogGrows(ownerOf, s, step);
    if SettledBefore(s.log, i, |s.log|) {
      if t.log != s.log {
        var e :| t.log == s.log + [e];
        SettledGrows(s.log, e, i, |s.log|);
      }
    } else {
      MarkedAttemptFate(ownerOf, s, step, s.log[i].worker, s.log[i].cycle);
      if t.log != s.log && !Pending(ownerOf, t, t.log[i]) {
        assert Settles(t.log[|s.log|], t.log[i]);
      }
    }
  }

  /** When a marker is set, every earlier marker of the cycle has been settled. */
  lemma MarkerNeedsSettled(ownerOf: nat -> string, s: Sys, step: Step, m: Event, i: nat)
    requires Distinct(ownerOf, s.workers) && Inv(ownerOf, s) && Ordered(ownerOf, s)
    requires m.Marked? && EventOf(s, step, m) && Apply(ownerOf, s, step).log == s.log + [m]
    requires i < |s.log| && s.log[i].Marked? && s.log[i].cycle == m.cycle
    ensures SettledBefore(s.log, i, |s.log|)
  {
    var op := s.db.ops[m.cycle];
    assert |Apply(ownerOf, s, step).log| == |s.log| + 1;
    assert HeldBy(op, ownerOf(m.worker));
    assert s.log[i].worker != m.worker;
  }

  lemma OrderedStep(ownerOf: nat -> string, s: Sys, step: Step)
    requires Distinct(ownerOf, s.workers) && Inv(ownerOf, s) && Ordered(ownerOf, s)
    ensures Ordered(ownerOf, Apply(ownerOf, s, step))
  {
    var t := Apply(ownerOf, s, step);
    LogGrows(ownerOf, s, step);
    forall i | 0 <= i < |t.log| && t.log[i].Marked?
      ensures t.log[i].worker in t.workers && !Unmarked(t.workers[t.log[i].worker].pc)
      ensures SettledBefore(t.log, i, |t.log|) || Pending(ownerOf, t, t.log[i])
    {
      if i < |s.log| {
        MarkerStep(ownerOf, s, step, i);
        NeverUnmarked(ownerOf, s, step, s.log[i].worker);
      }
    }
    forall i, j | 0 <= i < j < |t.log| && t.log[i].Marked? && t.log[j].Marked? && t.log[i].cycle == t.log[j].cycle
      ensures SettledBefore(t.log, i, j)
    {
      if j < |s.log| {
        assert SettledBefore(s.log, i, j);
        if t.log != s.log { var e :| t.log == s.log + [e]; SettledGrows(s.log, e, i, j); }
      } else {
        var e :| t.log == s.log + [e] && EventOf(s, step, e);
        MarkerNeedsSettled(ownerOf, s, step, e, i);
        SettledGrows(s.log, e, i, |s.log|);
      }
    }
  }

  lemma {:induction false} RunOrdered(ownerOf: nat -> string, steps: seq<Step>)
    requires Distinct(ownerOf, Run(ownerOf, Start, steps).workers)
    ensures Ordered(ownerOf, Run(ownerOf, Start, steps))
  {
    if steps == [] {
    } else {
      DistinctBefore(ownerOf, Start, steps);
      RunOrdered(ownerOf, steps[..|steps| - 1]);
      RunKept(ownerOf, steps[..|steps| - 1]);
      OrderedStep(ownerOf, Run(ownerOf, Start, steps[..|steps| - 1]), steps[|steps| - 1]);
    }
  }

  /** A second provider call for a cycle starts only after the first call's own claim holder recorded
      it as retryable, or after a release with proof of remote absence. */
  lemma SecondCallIsSettled(ownerOf: nat -> string, steps: seq<Step>, i: nat, j: nat)
    requires Distinct(ownerOf, Run(ownerOf, Start, steps).workers)
    requires var log := Run(ownerOf, Start, steps).log;
             i < j < |log| && log[i].Marked? && log[j].Marked? && log[i].cycle == log[j].cycle
    ensures var log := Run(ownerOf, Start, steps).log;
            exists k :: i < k < j && (log[k] == Recorded(log[i].cycle, log[i].worker)
                                      || (log[k].Released? && log[k].cycle == log[i].cycle))
  {
    RunOrdered(ownerOf, steps);
    var log := Run(ownerOf, Start, steps).log;
    assert SettledBefore(log, i, j);
    var k :| i < k < j && Settles(log[k], log[i]);
  }

  // ---- A lost lease stays lost --------------------------------------------------------------------

  /** An invocation that marked and then lost its row never holds it again, so a late finish by it
      changes no table. */
  lemma {:induction false} LateFinishIsNoOp(ownerOf: nat -> string, s: Sys, steps: seq<Step>, v: nat)
    requires Distinct(ownerOf, Run(ownerOf, s, steps).workers)
    requires v in s.workers && !Unmarked(s.workers[v].pc)
    requires At(s, v) && !HeldBy(s.db.ops[s.workers[v].cycle], ownerOf(v))
    ensures var t := Run(ownerOf, s, steps);
            && At(t, v) && !Unmarked(t.workers[v].pc) && t.workers[v].cycle == s.workers[v].cycle
            && !HeldBy(t.db.ops[t.workers[v].cycle], ownerOf(v))
            && Apply(ownerOf, t, FinishRow(v)).db == t.db
  {
    if steps != [] {
      DistinctBefore(ownerOf, s, steps);
      LateFinishIsNoOp(ownerOf, s, steps[..|steps| - 1], v);
      LostStep(ownerOf, Run(ownerOf, s, steps[..|steps| - 1]), steps[|steps| - 1], v);
    }
    FinishLost(ownerOf, Run(ownerOf, s, steps), v);
  }

  lemma LostStep(ownerOf: nat -> string, s: Sys, step: Step, v: nat)
    requires Distinct(ownerOf, s.workers)
    requires At(s, v) && !Unmarked(s.workers[v].pc)
    requires !HeldBy(s.db.ops[s.workers[v].cycle], ownerOf(v))
    ensures var t := Apply(ownerOf, s, step);
            && At(t, v) && !Unmarked(t.workers[v].pc) && t.workers[v].cycle == s.workers[v].cycle
            && !HeldBy(t.db.ops[t.workers[v].cycle], ownerOf(v))
  {
    hide Decide, Fresh, OperationState, EvaluateConfidence;
    NeverUnmarked(ownerOf, s, step, v);
  }

  lemma FinishLost(ownerOf: nat -> string, s: Sys, v: nat)
    requires At(s, v) && !HeldBy(s.db.ops[s.workers[v].cycle], ownerOf(v))
    ensures Apply(ownerOf, s, FinishRow(v)).db == s.db
  {
    if s.workers[v].pc.Finishing? {
      assert s.db.ops[s.workers[v].cycle := s.db.ops[s.workers[v].cycle]] == s.db.ops;
    }
  }

  // ---- Reachable rows -----------------------------------------------------------------------------

  /** Every reachable row: `sol_id` is set, and safe, exactly when the row is completed; completed and
      reconciliation_required rows carry a marker; and so do exactly the rows that were ever tried. */
  lemma ReachableRow(ownerOf: nat -> string, steps: seq<Step>, cycle: nat)
    requires Distinct(ownerOf, Run(ownerOf, Start, steps).workers) && cycle in Run(ownerOf, Start, steps).db.ops
    ensures var op := Run(ownerOf, Start, steps).db.ops[cycle];
            && (op.solId.Some? <==> op.state == Completed) && (op.solId.Some? ==> SafeSolId(op.solId.value))
            && (op.completedAt.Some? <==> op.state == Completed)
            && (op.state in {Completed, ReconciliationRequired} ==> op.postStarted.Some?)
            && (op.postStarted.Some? <==> op.attempts > 0) && (op.firstAttempt.Some? <==> op.attempts > 0)
            && (op.state == NotStarted ==> op.attempts == 0)
            && (op.state == Attempting ==> op.owner.Some? && op.expires.Some?)
  {
    RunKept(ownerOf, steps);
    assert CycleOk(ownerOf, Run(ownerOf, Start, steps), cycle);
  }

  /** A marker is set only with a confidence from 0.5 to 1. */
  lemma {:induction false} MarkersAreConfident(ownerOf: nat -> string, steps: seq<Step>, i: nat)
    requires i < |Run(ownerOf, Start, steps).log| && Run(ownerOf, Start, steps).log[i].Marked?
    ensures var c := Run(ownerOf, Start, steps).log[i].confidence; c.Score? && 0.5 <= c.value <= 1.0
  {
    if steps != [] {
      var s, step := Run(ownerOf, Start, steps[..|steps| - 1]), steps[|steps| - 1];
      LogGrows(ownerOf, s, step);
      if i < |s.log| { MarkersAreConfident(ownerOf, steps[..|steps| - 1], i); }
    }
  }

  lemma CompletedStep(ownerOf: nat -> string, s: Sys, step: Step, cycle: nat)
    requires cycle in s.db.ops && s.db.ops[cycle].state == Completed
    ensures var t := Apply(ownerOf, s, step);
            cycle in t.db.ops && t.db.ops[cycle].state == Completed && t.db.ops[cycle].solId == s.db.ops[cycle].solId
  {
    hide Decide, Fresh, OperationState, EvaluateConfidence;
  }

  /** `completed` is absorbing, with one fixed `sol_id`. */
  lemma {:induction false} CompletedForever(ownerOf: nat -> string, s: Sys, steps: seq<Step>, cycle: nat)
    requires cycle in s.db.ops && s.db.ops[cycle].state == Completed
    ensures var t := Run(ownerOf, s, steps);
            cycle in t.db.ops && t.db.ops[cycle].state == Completed && t.db.ops[cycle].solId == s.db.ops[cycle].solId
  {
    if steps != [] {
      CompletedForever(ownerOf, s, steps[..|steps| - 1], cycle);
      CompletedStep(ownerOf, Run(ownerOf, s, steps[..|steps| - 1]), steps[|steps| - 1], cycle);
    }
  }

  /** A definitive failure is left only when the mapping was missing and nothing was ever attempted, and
      only by the invocation that holds its recovery claim. */
  lemma DefinitiveFailureLeft(ownerOf: nat -> string, s: Sys, step: Step, cycle: nat)
    requires cycle in s.db.ops && s.db.ops[cycle].state == DefinitiveFailure
    requires Apply(ownerOf, s, step).db.ops[cycle].state != DefinitiveFailure
    ensures step.ReopenRow? && s.db.ops[cycle].owner == Some(ownerOf(step.w))
    ensures s.db.ops[cycle].category == Some("mapping_missing") && s.db.ops[cycle].attempts == 0
    ensures s.db.ops[cycle].postStarted.None? && Apply(ownerOf, s, step).db.ops[cycle].state == NotStarted
  {
    hide Decide, Fresh, OperationState, EvaluateConfidence;
  }

  /** A recorded reconciliation key changes nothing when it is replayed, on its operation or another. */
  lemma KeyReplay(ownerOf: nat -> string, s: Sys, cycle: nat, order: Order)
    requires order.key in s.db.audits
    ensures Apply(ownerOf, s, Operate(cycle, order)) == s
    ensures cycle in s.db.ops ==>
              (Verdict(s.db, cycle, order) == Ok(false) <==> s.db.audits[order.key].cycle == cycle)
  {
  }
}
