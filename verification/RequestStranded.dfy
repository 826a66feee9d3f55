/** A confidence block after an earlier attempt: what the code does with it, in every run. */
module RequestStranded {
  import opened Common
  import opened RequestProvider
  import opened RequestOperations
  import opened RequestProtocol
  import opened RequestSafety
  import opened RequestTheorems
  import opened RequestOwners

  /** The step blocks the row that invocation `w` holds: the marker finds the confidence too low, or the block
      that follows the earlier reading of it. */
  predicate Blocks(ownerOf: nat -> string, s: Sys, step: Step, w: nat) {
    && At(s, w) && HeldBy(s.db.ops[s.workers[w].cycle], ownerOf(w))
    && match step
       case MarkRow(v, c) => v == w && s.workers[w].pc.Armed? && EvaluateConfidence(c) != Allowed
       case BlockConfidence(v) => v == w && s.workers[w].pc.Blocking?
       case _ => false
  }

  /** The log holds no marker of the cycle. */
  ghost predicate NeverMarked(log: seq<Event>, cycle: nat) {
    forall k :: 0 <= k < |log| ==> !(log[k].Marked? && log[k].cycle == cycle)
  }

  lemma {:induction false} NeverMarkedCounts(log: seq<Event>, cycle: nat)
    ensures Tally(log, cycle).marks == 0 <==> NeverMarked(log, cycle)
  {
    if log != [] {
      NeverMarkedCounts(log[..|log| - 1], cycle);
      assert log == log[..|log| - 1] + [log[|log| - 1]];
    }
  }

  /** In every reachable state: a held row that is blocked by its confidence ends in a definitive failure if and
      only if its cycle was never marked. Otherwise the block changes no table, although the invocation is
      gone, and a claim after the lease turns the row to reconciliation. */
  lemma BlockedRetryIsStranded(ownerOf: nat -> string, steps: seq<Step>, step: Step, w: nat)
    requires Distinct(ownerOf, Run(ownerOf, Start, steps).workers) && Blocks(ownerOf, Run(ownerOf, Start, steps), step, w)
    ensures var s := Run(ownerOf, Start, steps);
            var t, cycle := Apply(ownerOf, s, step), s.workers[w].cycle;
            && cycle in t.db.ops && w in t.workers && t.workers[w].pc == Gone && t.log == s.log
            && (t.db.ops[cycle].state == DefinitiveFailure <==> NeverMarked(s.log, cycle))
            && (!NeverMarked(s.log, cycle) ==>
                  && t.db.ops == s.db.ops && t.db.audits == s.db.audits && t.db.ops[cycle].expires.Some?
                  && forall owner, lease, later :: t.db.ops[cycle].expires.value <= later ==>
                       Claim(t.db.ops[cycle], owner, lease, later).0.state == ReconciliationRequired)
  {
    var s := Run(ownerOf, Start, steps);
    var cycle := s.workers[w].cycle;
    RunKept(ownerOf, steps);
    assert CycleOk(ownerOf, s, cycle);
    NeverMarkedCounts(s.log, cycle);
    assert s.db.ops[cycle := s.db.ops[cycle]] == s.db.ops;
  }

  /** The row of the cycle is held by an invocation that is gone, after a marker. */
  ghost predicate Stranded(ownerOf: nat -> string, s: Sys, w: nat, cycle: nat) {
    && w in s.workers && s.workers[w].pc == Gone
    && cycle in s.db.ops && HeldBy(s.db.ops[cycle], ownerOf(w)) && s.db.ops[cycle].postStarted.Some?
  }

  /** An order does nothing to a row that is being attempted. */
  lemma OrderLeavesStranded(ownerOf: nat -> string, s: Sys, cycle: nat, order: Order, other: nat)
    requires cycle in s.db.ops && s.db.ops[cycle].state == Attempting
    ensures var t := Apply(ownerOf, s, Operate(other, order));
            t.workers == s.workers && cycle in t.db.ops && t.db.ops[cycle] == s.db.ops[cycle]
  {
  }

  lemma StrandedStep(ownerOf: nat -> string, s: Sys, step: Step, w: nat, cycle: nat)
    requires Distinct(ownerOf, s.workers) && Stranded(ownerOf, s, w, cycle)
    ensures var t := Apply(ownerOf, s, step);
            && cycle in t.db.ops
            && ((Stranded(ownerOf, t, w, cycle) && t.db.ops[cycle] == s.db.ops[cycle])
                || (Expired(s.db.ops[cycle], s.now) && t.db.ops[cycle].state == ReconciliationRequired))
  {
    hide Decide, Fresh, OperationState, EvaluateConfidence, OperateStep;
    if step.Operate? { OrderLeavesStranded(ownerOf, s, cycle, step.order, step.cycle); }
  }

  ghost predicate ReconciledAt(ownerOf: nat -> string, s: Sys, steps: seq<Step>, cycle: nat, m: nat)
    requires m < |steps| && cycle in s.db.ops
  {
    var before, after := Run(ownerOf, s, steps[..m]), Run(ownerOf, s, steps[..m + 1]);
    && cycle in before.db.ops && before.db.ops[cycle] == s.db.ops[cycle] && Expired(s.db.ops[cycle], before.now)
    && cycle in after.db.ops && after.db.ops[cycle].state == ReconciliationRequired
  }

  /** A stranded row never changes but by the expiry of its lease, which turns it to reconciliation. */
  lemma {:induction false} StrandedUntilReconciled(ownerOf: nat -> string, s: Sys, steps: seq<Step>, w: nat, cycle: nat)
    requires Distinct(ownerOf, Run(ownerOf, s, steps).workers) && Stranded(ownerOf, s, w, cycle)
    ensures var t := Run(ownerOf, s, steps);
            || (Stranded(ownerOf, t, w, cycle) && t.db.ops[cycle] == s.db.ops[cycle])
            || exists m :: 0 <= m < |steps| && ReconciledAt(ownerOf, s, steps, cycle, m)
  {
    if steps != [] {
      var n := |steps| - 1;
      DistinctBefore(ownerOf, s, steps);
      StrandedUntilReconciled(ownerOf, s, steps[..n], w, cycle);
      var before := Run(ownerOf, s, steps[..n]);
      if Stranded(ownerOf, before, w, cycle) && before.db.ops[cycle] == s.db.ops[cycle] {
        hide Apply, Stranded;
        StrandedStep(ownerOf, before, steps[n], w, cycle);
        assert steps[..n + 1] == steps;
        if Run(ownerOf, s, steps).db.ops[cycle].state == ReconciliationRequired && Expired(s.db.ops[cycle], before.now) {
          assert ReconciledAt(ownerOf, s, steps, cycle, n);
        }
      } else {
        var m :| 0 <= m < n && ReconciledAt(ownerOf, s, steps[..n], cycle, m);
        assert steps[..n][..m] == steps[..m] && steps[..n][..m + 1] == steps[..m + 1];
        assert ReconciledAt(ownerOf, s, steps, cycle, m);
      }
    }
  }

  // ---- A run that strands its row -----------------------------------------------------------------------

  function FailSteps(w: nat): seq<Step> { [MarkRow(w, Score(1.0))] + [Post(w, PreSendError)] + [FinishRow(w)] }

  lemma MarkFirst(ownerOf: nat -> string, s: Sys, w: nat)
    requires w in s.workers && s.workers[w] == Worker(0, Armed(1, true)) && Held(s, ownerOf(w))
    ensures var t := Apply(ownerOf, s, MarkRow(w, Score(1.0)));
            && t.log == s.log + [Marked(0, w, Score(1.0))] && t.workers == s.workers[w := Worker(0, Posting(1, 1, true))]
            && 0 in t.db.ops && HeldBy(t.db.ops[0], ownerOf(w)) && t.db.ops[0].postStarted.Some?
  {
  }

  lemma PostUnsent(ownerOf: nat -> string, s: Sys, w: nat)
    requires 0 in s.db.ops && w in s.workers && s.workers[w] == Worker(0, Posting(1, 1, true))
    ensures var t := Apply(ownerOf, s, Post(w, PreSendError));
            && t.log == s.log + [Sent(0, w, PreSendError)] && t.db == s.db
            && t.workers == s.workers[w := Worker(0, Finishing(Retryable("pre_send_connection", None), true))]
  {
  }

  lemma FinishRetryable(ownerOf: nat -> string, s: Sys, w: nat)
    requires w in s.workers && s.workers[w] == Worker(0, Finishing(Retryable("pre_send_connection", None), true))
    requires 0 in s.db.ops && HeldBy(s.db.ops[0], ownerOf(w)) && s.db.ops[0].postStarted.Some?
    ensures var t := Apply(ownerOf, s, FinishRow(w));
            && t.log == s.log + [Recorded(0, w)] && t.workers == s.workers[w := Worker(0, Gone)]
            && 0 in t.db.ops && t.db.ops[0].state == RetryableFailure && t.db.ops[0].postStarted.Some?
  {
  }

  /** A marker, a POST that never left, and a retryable finish. */
  lemma Fail(ownerOf: nat -> string, s: Sys, w: nat)
    requires w in s.workers && s.workers[w] == Worker(0, Armed(1, true)) && Held(s, ownerOf(w))
    ensures var t := Run(ownerOf, s, FailSteps(w));
            && t.log == s.log + [Marked(0, w, Score(1.0)), Sent(0, w, PreSendError), Recorded(0, w)]
            && 0 in t.db.ops && t.db.ops[0].state == RetryableFailure && t.db.ops[0].postStarted.Some?
            && t.workers == s.workers[w := Worker(0, Gone)]
  {
    hide Apply, Run;
    var s1 := Apply(ownerOf, s, MarkRow(w, Score(1.0)));
    var s2 := Apply(ownerOf, s1, Post(w, PreSendError));
    MarkFirst(ownerOf, s, w);
    PostUnsent(ownerOf, s1, w);
    FinishRetryable(ownerOf, s2, w);
    RunOne(ownerOf, s, MarkRow(w, Score(1.0)));
    RunOne(ownerOf, s1, Post(w, PreSendError));
    RunOne(ownerOf, s2, FinishRow(w));
    RunConcat(ownerOf, s, [MarkRow(w, Score(1.0))], [Post(w, PreSendError)]);
    RunConcat(ownerOf, s, [MarkRow(w, Score(1.0))] + [Post(w, PreSendError)], [FinishRow(w)]);
  }

  function EnterOf(w: nat): Step { Enter(w, 0, SomeFacts, Some(SomeMapping), SomeDirectory) }

  /** Another invocation finds the row retryable. */
  lemma EnterAgain(ownerOf: nat -> string, s: Sys, w: nat)
    requires w !in s.workers && 0 in s.db.ops && s.db.ops[0].state == RetryableFailure
    ensures var t := Run(ownerOf, s, [EnterOf(w)]);
            t.log == s.log && t.workers == s.workers[w := Worker(0, Entered)] && 0 in t.db.ops && t.db.ops[0] == s.db.ops[0]
  {
    hide Run;
    RunOne(ownerOf, s, EnterOf(w));
  }

  function BlockSteps(w: nat): seq<Step> {
    [ClaimRow(w, 1)] + [LoadPayload(w, Some(SomePayload))] + [ReadConfidence(w, Invalid)] + [BlockConfidence(w)]
  }

  /** `w` stands at `pc` for cycle 0, whose marked row it holds. */
  ghost predicate Holds(ownerOf: nat -> string, s: Sys, t: Sys, w: nat, pc: Pc) {
    && t.log == s.log && t.now == s.now && t.workers == s.workers[w := Worker(0, pc)]
    && 0 in t.db.ops && HeldBy(t.db.ops[0], ownerOf(w)) && t.db.ops[0].postStarted.Some?
    && t.db.ops[0].expires == Some(s.now + 1)
  }

  lemma ClaimAgain(ownerOf: nat -> string, s: Sys, w: nat)
    requires w in s.workers && s.workers[w] == Worker(0, Entered)
    requires 0 in s.db.ops && s.db.ops[0].state == RetryableFailure && s.db.ops[0].postStarted.Some?
    ensures Holds(ownerOf, s, Apply(ownerOf, s, ClaimRow(w, 1)), w, Claimed)
  {
  }

  lemma ReadInvalid(ownerOf: nat -> string, s: Sys, t: Sys, w: nat)
    ensures Holds(ownerOf, s, t, w, Claimed) ==>
              Holds(ownerOf, s, Apply(ownerOf, t, LoadPayload(w, Some(SomePayload))), w, Loaded(SomePayload))
    ensures Holds(ownerOf, s, t, w, Loaded(SomePayload)) ==>
              Holds(ownerOf, s, Apply(ownerOf, t, ReadConfidence(w, Invalid)), w, Blocking(Invalid))
    ensures Holds(ownerOf, s, t, w, Blocking(Invalid)) ==>
              Holds(ownerOf, s, Apply(ownerOf, t, BlockConfidence(w)), w, Gone)
  {
  }

  /** A second claim, whose confidence has become invalid, and its block. */
  lemma Block(ownerOf: nat -> string, s: Sys, w: nat)
    requires w in s.workers && s.workers[w] == Worker(0, Entered)
    requires 0 in s.db.ops && s.db.ops[0].state == RetryableFailure && s.db.ops[0].postStarted.Some?
    ensures var t := Run(ownerOf, s, BlockSteps(w));
            && t.log == s.log && t.now == s.now && t.workers == s.workers[w := Worker(0, Gone)]
            && Stranded(ownerOf, t, w, 0) && t.db.ops[0].expires == Some(s.now + 1)
  {
    hide Run, Apply;
    var s1 := Apply(ownerOf, s, ClaimRow(w, 1));
    var s2 := Apply(ownerOf, s1, LoadPayload(w, Some(SomePayload)));
    var s3 := Apply(ownerOf, s2, ReadConfidence(w, Invalid));
    ClaimAgain(ownerOf, s, w);
    ReadInvalid(ownerOf, s, s1, w);
    ReadInvalid(ownerOf, s, s2, w);
    ReadInvalid(ownerOf, s, s3, w);
    RunOne(ownerOf, s, ClaimRow(w, 1));
    RunOne(ownerOf, s1, LoadPayload(w, Some(SomePayload)));
    RunOne(ownerOf, s2, ReadConfidence(w, Invalid));
    RunOne(ownerOf, s3, BlockConfidence(w));
    RunConcat(ownerOf, s, [ClaimRow(w, 1)], [LoadPayload(w, Some(SomePayload))]);
    RunConcat(ownerOf, s, [ClaimRow(w, 1)] + [LoadPayload(w, Some(SomePayload))], [ReadConfidence(w, Invalid)]);
    RunConcat(ownerOf, s, [ClaimRow(w, 1)] + [LoadPayload(w, Some(SomePayload))] + [ReadConfidence(w, Invalid)],
              [BlockConfidence(w)]);
  }

  /** The lease runs out, and a third invocation claims. */
  lemma Expire(ownerOf: nat -> string, s: Sys, w: nat)
    requires w in s.workers && s.workers[w] == Worker(0, Entered)
    requires 0 in s.db.ops && s.db.ops[0].state == Attempting && s.db.ops[0].postStarted.Some?
    requires s.db.ops[0].expires == Some(s.now + 1)
    ensures var t := Run(ownerOf, s, [Tick(1)] + [ClaimRow(w, 1)]);
            t.log == s.log && 0 in t.db.ops && t.db.ops[0].state == ReconciliationRequired
  {
    hide Run;
    RunOne(ownerOf, s, Tick(1));
    RunOne(ownerOf, Apply(ownerOf, s, Tick(1)), ClaimRow(w, 1));
    RunConcat(ownerOf, s, [Tick(1)], [ClaimRow(w, 1)]);
  }

  function StrandingRun(a: nat, b: nat, c: nat): seq<Step> {
    OpeningSteps(a, b) + ArmSteps(a) + FailSteps(a) + [EnterOf(c)] + BlockSteps(b) + ([Tick(1)] + [ClaimRow(c, 1)])
  }

  /** From an empty database: the first invocation's only POST provably never left and is recorded as
      retryable; the second claims the row, is blocked, and makes no POST; and after its lease the row asks for
      reconciliation. */
  lemma StrandingRunHappens(ownerOf: nat -> string, a: nat, b: nat, c: nat)
    requires a != b && b != c && a != c
    ensures var t := Run(ownerOf, Start, StrandingRun(a, b, c));
            && t.log == [Marked(0, a, Score(1.0)), Sent(0, a, PreSendError), Recorded(0, a)]
            && 0 in t.db.ops && t.db.ops[0].state == ReconciliationRequired
  {
    hide Apply, Run;
    var r1 := OpeningSteps(a, b);
    var r2 := r1 + ArmSteps(a);
    var r3 := r2 + FailSteps(a);
    var r4 := r3 + [EnterOf(c)];
    var r5 := r4 + BlockSteps(b);
    Opening(ownerOf, a, b);
    RunConcat(ownerOf, Start, r1, ArmSteps(a));
    Arm(ownerOf, Run(ownerOf, Start, r1), a);
    RunConcat(ownerOf, Start, r2, FailSteps(a));
    Fail(ownerOf, Run(ownerOf, Start, r2), a);
    RunConcat(ownerOf, Start, r3, [EnterOf(c)]);
    EnterAgain(ownerOf, Run(ownerOf, Start, r3), c);
    RunConcat(ownerOf, Start, r4, BlockSteps(b));
    Block(ownerOf, Run(ownerOf, Start, r4), b);
    RunConcat(ownerOf, Start, r5, [Tick(1)] + [ClaimRow(c, 1)]);
    Expire(ownerOf, Run(ownerOf, Start, r5), c);
  }
}
