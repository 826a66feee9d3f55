/** The tables fence a claim by its owner string alone. This module shows that the safety of the
    Request protocol holds exactly when no two invocations write the same owner string. */
module RequestOwners {
  import opened Common
  import opened RequestProvider
  import opened RequestOperations
  import opened RequestProtocol
  import opened RequestTheorems

  const SomeFacts := CycleFacts("completed", true, Score(1.0), Some("t"), Some("d"), None)
  const SomeMapping := MappingFacts(1, true, None, Some(1), Some("7"))
  const SomeDirectory := DirectoryFacts(Some("c"), true)
  const SomePayload := Payload("t", "c", "7", "d")

  lemma StripOne(c: char)
    requires !IsSpace(c)
    ensures Strip([c]) == [c]
  {
    assert StripLeft([c]) == [c] && StripRight([c]) == [c];
  }

  lemma SomeCycleIsEligible()
    ensures OperationState(SomeFacts, Some(SomeMapping), SomeDirectory).Ready?
  {
    StripOne('t');
    StripOne('c');
    StripOne('7');
    assert "t" == ['t'] && "c" == ['c'] && "7" == ['7'];
    assert Matches("7", IsDigit, 1);
  }

  lemma {:induction false} RunConcat(ownerOf: nat -> string, s: Sys, xs: seq<Step>, ys: seq<Step>)
    ensures Run(ownerOf, s, xs + ys) == Run(ownerOf, Run(ownerOf, s, xs), ys)
    decreases |ys|
  {
    if ys == [] {
      assert xs + ys == xs;
    } else {
      RunConcat(ownerOf, s, xs, ys[..|ys| - 1]);
      assert (xs + ys)[..|xs + ys| - 1] == xs + ys[..|ys| - 1];
    }
  }

  lemma RunOne(ownerOf: nat -> string, s: Sys, step: Step)
    ensures Run(ownerOf, s, [step]) == Apply(ownerOf, s, step)
  {
    assert [step][..0] == [] && Run(ownerOf, s, []) == s;
  }

  /** The row of cycle 0 is held under `owner` and was never marked. */
  ghost predicate Held(s: Sys, owner: string) {
    0 in s.db.ops && HeldBy(s.db.ops[0], owner) && s.db.ops[0].postStarted.None?
  }

  function ArmSteps(w: nat): seq<Step> {
    [LoadPayload(w, Some(SomePayload)), ReadConfidence(w, Score(1.0)), RefreshRow(w), SetUpProvider(w, true, 1, true)]
  }

  /** From its claim to the point before its marker. */
  lemma Arm(ownerOf: nat -> string, s: Sys, w: nat)
    requires w in s.workers && s.workers[w] == Worker(0, Claimed) && Held(s, ownerOf(w))
    ensures var t := Run(ownerOf, s, ArmSteps(w));
            && t.workers == s.workers[w := Worker(0, Armed(1, true))]
            && Held(t, ownerOf(w)) && t.db.ops[0].expires == s.db.ops[0].expires
            && t.log == s.log && t.now == s.now
  {
    hide Run;
    var s1 := Apply(ownerOf, s, LoadPayload(w, Some(SomePayload)));
    var s2 := Apply(ownerOf, s1, ReadConfidence(w, Score(1.0)));
    var s3 := Apply(ownerOf, s2, RefreshRow(w));
    var s4 := Apply(ownerOf, s3, SetUpProvider(w, true, 1, true));
    var x1, x2, x3 := [LoadPayload(w, Some(SomePayload))], [ReadConfidence(w, Score(1.0))], [RefreshRow(w)];
    RunOne(ownerOf, s, x1[0]);
    RunOne(ownerOf, s1, x2[0]);
    RunOne(ownerOf, s2, x3[0]);
    RunOne(ownerOf, s3, SetUpProvider(w, true, 1, true));
    RunConcat(ownerOf, s, x1, x2);
    RunConcat(ownerOf, s, x1 + x2, x3);
    RunConcat(ownerOf, s, x1 + x2 + x3, [SetUpProvider(w, true, 1, true)]);
    assert ArmSteps(w) == x1 + x2 + x3 + [SetUpProvider(w, true, 1, true)];
  }

  function FireSteps(w: nat): seq<Step> { [MarkRow(w, Score(1.0)), Post(w, TimeoutError)] }

  /** A marker, and a POST that times out. */
  lemma Fire(ownerOf: nat -> string, s: Sys, w: nat)
    requires w in s.workers && s.workers[w] == Worker(0, Armed(1, true))
    requires 0 in s.db.ops && HeldBy(s.db.ops[0], ownerOf(w))
    ensures var t := Run(ownerOf, s, FireSteps(w));
            && t.log == s.log + [Marked(0, w, Score(1.0)), Sent(0, w, TimeoutError)]
            && 0 in t.db.ops && HeldBy(t.db.ops[0], ownerOf(w))
            && (forall v :: v in s.workers && v != w ==> v in t.workers && t.workers[v] == s.workers[v])
  {
    hide Run;
    var s1 := Apply(ownerOf, s, MarkRow(w, Score(1.0)));
    RunOne(ownerOf, s, MarkRow(w, Score(1.0)));
    RunOne(ownerOf, s1, Post(w, TimeoutError));
    RunConcat(ownerOf, s, [MarkRow(w, Score(1.0))], [Post(w, TimeoutError)]);
    assert FireSteps(w) == [MarkRow(w, Score(1.0))] + [Post(w, TimeoutError)];
  }

  function OpeningSteps(a: nat, b: nat): seq<Step> {
    [Enter(a, 0, SomeFacts, Some(SomeMapping), SomeDirectory)]
    + [Enter(b, 0, SomeFacts, Some(SomeMapping), SomeDirectory)]
    + [ClaimRow(a, 1)]
  }

  lemma Opening(ownerOf: nat -> string, a: nat, b: nat)
    requires a != b
    ensures var t := Run(ownerOf, Start, OpeningSteps(a, b));
            && t.workers == map[a := Worker(0, Claimed), b := Worker(0, Entered)]
            && Held(t, ownerOf(a)) && t.db.ops[0].expires == Some(1) && t.log == [] && t.now == 0
  {
    SomeCycleIsEligible();
    var x, y, z := Enter(a, 0, SomeFacts, Some(SomeMapping), SomeDirectory),
                   Enter(b, 0, SomeFacts, Some(SomeMapping), SomeDirectory), ClaimRow(a, 1);
    var s1 := Apply(ownerOf, Start, x);
    var s2 := Apply(ownerOf, s1, y);
    RunOne(ownerOf, Start, x);
    RunOne(ownerOf, s1, y);
    RunOne(ownerOf, s2, z);
    RunConcat(ownerOf, Start, [x], [y]);
    RunConcat(ownerOf, Start, [x] + [y], [z]);
    assert s2.workers == map[a := Worker(0, Entered), b := Worker(0, Entered)];
  }

  function TakeOverSteps(b: nat): seq<Step> { [Tick(1)] + [ClaimRow(b, 1)] }

  /** The first lease expires before the marker, and the other invocation claims the row. */
  lemma TakeOver(ownerOf: nat -> string, s: Sys, a: nat, b: nat)
    requires a != b && ownerOf(a) == ownerOf(b)
    requires s.workers == map[a := Worker(0, Armed(1, true)), b := Worker(0, Entered)]
    requires Held(s, ownerOf(a)) && s.db.ops[0].expires == Some(1) && s.now == 0
    ensures var t := Run(ownerOf, s, TakeOverSteps(b));
            && t.workers == map[a := Worker(0, Armed(1, true)), b := Worker(0, Claimed)]
            && Held(t, ownerOf(b)) && t.log == s.log
  {
    hide Run;
    RunOne(ownerOf, s, Tick(1));
    RunOne(ownerOf, Apply(ownerOf, s, Tick(1)), ClaimRow(b, 1));
    RunConcat(ownerOf, s, [Tick(1)], [ClaimRow(b, 1)]);
  }

  function DoublePost(a: nat, b: nat): seq<Step> {
    OpeningSteps(a, b) + ArmSteps(a) + TakeOverSteps(b) + ArmSteps(b) + FireSteps(b) + FireSteps(a)
  }

  /** Two invocations that share an owner string can both POST, and both POSTs are ambiguous. */
  lemma SharedOwnerPostsTwice(ownerOf: nat -> string, a: nat, b: nat)
    requires a != b && ownerOf(a) == ownerOf(b)
    ensures Run(ownerOf, Start, DoublePost(a, b)).log ==
            [Marked(0, b, Score(1.0)), Sent(0, b, TimeoutError), Marked(0, a, Score(1.0)), Sent(0, a, TimeoutError)]
  {
    hide Apply, Run;
    var r1 := OpeningSteps(a, b);
    var r2 := r1 + ArmSteps(a);
    var r3 := r2 + TakeOverSteps(b);
    var r4 := r3 + ArmSteps(b);
    var r5 := r4 + FireSteps(b);
    Opening(ownerOf, a, b);
    RunConcat(ownerOf, Start, r1, ArmSteps(a));
    Arm(ownerOf, Run(ownerOf, Start, r1), a);
    RunConcat(ownerOf, Start, r2, TakeOverSteps(b));
    TakeOver(ownerOf, Run(ownerOf, Start, r2), a, b);
    RunConcat(ownerOf, Start, r3, ArmSteps(b));
    Arm(ownerOf, Run(ownerOf, Start, r3), b);
    RunConcat(ownerOf, Start, r4, FireSteps(b));
    Fire(ownerOf, Run(ownerOf, Start, r4), b);
    RunConcat(ownerOf, Start, r5, FireSteps(a));
    Fire(ownerOf, Run(ownerOf, Start, r5), a);
  }

  /** Every step is one by an invocation of `who`, or by nobody in particular. */
  ghost predicate By(steps: seq<Step>, who: iset<nat>) {
    forall step :: step in steps && !step.Operate? && !step.Tick? ==> step.w in who
  }

  lemma StepBrings(ownerOf: nat -> string, s: Sys, step: Step, w: nat)
    requires w in Apply(ownerOf, s, step).workers
    ensures w in s.workers || (!step.Operate? && !step.Tick? && w == step.w)
  {
    hide Decide, Fresh, OperationState, EvaluateConfidence, Claim, Mark, Finish, Refresh, Reopen, ClaimRecovery;
  }

  lemma {:induction false} RunBrings(ownerOf: nat -> string, steps: seq<Step>, who: iset<nat>)
    requires By(steps, who)
    ensures forall w :: w in Run(ownerOf, Start, steps).workers ==> w in who
  {
    if steps != [] {
      var n := |steps| - 1;
      RunBrings(ownerOf, steps[..n], who);
      forall w | w in Run(ownerOf, Start, steps).workers ensures w in who {
        StepBrings(ownerOf, Run(ownerOf, Start, steps[..n]), steps[n], w);
      }
    }
  }

  lemma DoublePostUnpaid(ownerOf: nat -> string, a: nat, b: nat)
    requires a != b && ownerOf(a) == ownerOf(b)
    ensures !PostsPaid(Run(ownerOf, Start, DoublePost(a, b)).log)
  {
    hide Run;
    SharedOwnerPostsTwice(ownerOf, a, b);
    var log := Run(ownerOf, Start, DoublePost(a, b)).log;
    UnprovenCounted(log[..3], 0, 1);
    NoneReleased(log[..3], 0);
  }

  lemma DoublePostBy(a: nat, b: nat, who: iset<nat>)
    requires a in who && b in who
    ensures By(DoublePost(a, b), who)
  {
  }

  /** Whoever the invocations are: every run of them keeps its ambiguous POSTs within its releases if and only
      if distinct ones have distinct claim owners. */
  lemma SafeExactlyWithDistinctOwners(ownerOf: nat -> string, who: iset<nat>)
    ensures (forall steps :: By(steps, who) ==> PostsPaid(Run(ownerOf, Start, steps).log)) <==>
            forall a, b :: a in who && b in who && ownerOf(a) == ownerOf(b) ==> a == b
  {
    hide Run, PostsPaid, By;
    if forall a, b :: a in who && b in who && ownerOf(a) == ownerOf(b) ==> a == b {
      forall steps | By(steps, who) ensures PostsPaid(Run(ownerOf, Start, steps).log) {
        RunBrings(ownerOf, steps, who);
        EveryPostIsPaid(ownerOf, steps);
      }
    } else {
      var a, b :| a in who && b in who && ownerOf(a) == ownerOf(b) && a != b;
      DoublePostUnpaid(ownerOf, a, b);
      DoublePostBy(a, b, who);
    }
  }
}
