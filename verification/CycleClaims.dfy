/** Claims of cycles: they are exclusive in time, and at a fixed clock they drain the due cycles in order. */
module CycleClaims {
  import opened Common
  import opened Selection
  import opened Cycles
  import opened CycleSafety

  // ---- Exclusion ------------------------------------------------------------------------------------

  /** The transaction `e` claims the cycle `id`. */
  predicate Wins(s: Sys, e: Event, id: nat) {
    || (e.ClaimEvent? && e.id == id && Claimable(s.rows, id, s.now))
    || (e.ClaimNextEvent? && NextDue(s.rows, s.now) == Some(id))
  }

  /** When the lease that `e` takes runs out. */
  function Until(s: Sys, e: Event): int
    requires e.ClaimEvent? || e.ClaimNextEvent?
  {
    s.now + e.seconds
  }

  /** A transition that makes the lease of the cycle `id` end before `until`, whoever makes it. */
  predicate CutsLease(s: Sys, e: Event, id: nat, until: int) {
    && e.TransitionEvent? && e.id == id && Permitted(e.p) && id < |s.rows| && Expected(s.rows[id], e.expected)
    && e.p.leaseExpires.Some? && (e.p.leaseExpires.value.None? || e.p.leaseExpires.value.value < until)
  }

  ghost predicate Guarded(s: Sys, id: nat, until: int) {
    id < |s.rows| && (!LeaseEnds(s.rows[id], until) || s.now >= until)
  }

  /** The lease is over before `until`. */
  predicate LeaseEnds(c: Cycle, until: int) { c.leaseExpires.None? || c.leaseExpires.value < until }

  lemma BestIsDue(s: Sys, id: nat)
    requires NextDue(s.rows, s.now) == Some(id)
    ensures Claimable(s.rows, id, s.now)
  {
    assert id in Candidates(DueKeys(s.rows, s.now));
  }

  lemma WinTakesLease(s: Sys, e: Event, id: nat)
    requires Wins(s, e, id)
    ensures Claimable(s.rows, id, s.now) && id < |Apply(s, e).rows|
    ensures Apply(s, e).rows[id] == Lease(s.rows[id], e.owner, e.seconds, s.now)
    ensures Guarded(Apply(s, e), id, Until(s, e))
  {
    if e.ClaimNextEvent? { BestIsDue(s, id); }
  }

  lemma GuardStep(s: Sys, e: Event, id: nat, until: int)
    requires Guarded(s, id, until) && !CutsLease(s, e, id, until)
    ensures Guarded(Apply(s, e), id, until)
    ensures Wins(s, e, id) ==> s.now >= until
  {
    if e.ClaimNextEvent? && NextDue(s.rows, s.now).Some? {
      BestIsDue(s, NextDue(s.rows, s.now).value);
    }
  }

  ghost predicate Cut(s: Sys, es: seq<Event>, a: nat, b: nat, id: nat, until: int)
    requires b <= |es|
  {
    exists m :: a < m < b && CutsLease(Run(s, es[..m]), es[m], id, until)
  }

  lemma RunPrefix(s: Sys, es: seq<Event>, m: nat)
    requires m < |es|
    ensures Run(s, es[..m + 1]) == Apply(Run(s, es[..m]), es[m])
  {
    assert es[..m + 1][..m] == es[..m];
  }

  lemma {:induction false} GuardLasts(s: Sys, es: seq<Event>, a: nat, b: nat, id: nat, until: int)
    requires a < b <= |es| && Wins(Run(s, es[..a]), es[a], id) && until == Until(Run(s, es[..a]), es[a])
    requires !Cut(s, es, a, b, id, until)
    ensures Guarded(Run(s, es[..b]), id, until)
    decreases b
  {
    hide Apply, CutsLease, Guarded;
    RunPrefix(s, es, b - 1);
    if b == a + 1 {
      WinTakesLease(Run(s, es[..a]), es[a], id);
    } else {
      GuardLasts(s, es, a, b - 1, id, until);
      GuardStep(Run(s, es[..b - 1]), es[b - 1], id, until);
    }
  }

  /** Two claims of one cycle, in any run, are separated by the end of the first lease, or by a transition
      in between that made it end earlier. */
  lemma ClaimsSeparated(s: Sys, es: seq<Event>, a: nat, b: nat, id: nat)
    requires a < b < |es| && Wins(Run(s, es[..a]), es[a], id) && Wins(Run(s, es[..b]), es[b], id)
    ensures var until := Until(Run(s, es[..a]), es[a]);
            Run(s, es[..b]).now >= until || Cut(s, es, a, b, id, until)
  {
    var until := Until(Run(s, es[..a]), es[a]);
    if !Cut(s, es, a, b, id, until) {
      GuardLasts(s, es, a, b, id, until);
      assert !CutsLease(Run(s, es[..b]), es[b], id, until);
      GuardStep(Run(s, es[..b]), es[b], id, until);
    }
  }

  // ---- When a cycle can be claimed before a lease ends ---------------------------------------------------

  /** A run without transitions. Closes schedule the first attempt `delay` later or more. */
  ghost predicate Steady(es: seq<Event>, delay: int) {
    forall e :: e in es ==> !e.TransitionEvent? && (e.CloseEvent? ==> e.delay >= delay)
  }

  ghost predicate ClaimedBefore(s: Sys, es: seq<Event>, claim: Event, id: nat, owner: string, until: int, delay: int) {
    && Steady(es, delay) && Wins(Run(s, es), claim, id) && claim.owner == owner && Run(s, es).now < until
  }

  /** Some continuation without a transition lets `owner` claim the cycle before `until`. */
  ghost predicate CanBeClaimed(s: Sys, id: nat, owner: string, until: int, delay: int) {
    exists es, claim :: ClaimedBefore(s, es, claim, id, owner, until, delay)
  }

  /** The cycle is scheduled before `until`, or a wake or a close may still schedule it before that. */
  predicate ComesDue(c: Cycle, now: int, until: int, delay: int) {
    || (Recoverable(c.status) && (c.nextAttempt.None? || c.nextAttempt.value < until))
    || c.status == MediaBlocked
    || (c.closed.None? && now + delay < until)
  }

  ghost predicate Barred(s: Sys, id: nat, until: int, delay: int) {
    id < |s.rows| && (s.now >= until || !LeaseEnds(s.rows[id], until) || !ComesDue(s.rows[id], s.now, until, delay))
  }

  lemma OpenKeepsBar(s: Sys, e: Event, id: nat, until: int, delay: int)
    requires Barred(s, id, until, delay) && e.OpenEvent?
    ensures Barred(Apply(s, e), id, until, delay)
  {
  }

  lemma CloseKeepsBar(s: Sys, e: Event, id: nat, until: int, delay: int)
    requires Barred(s, id, until, delay) && e.CloseEvent? && e.delay >= delay
    ensures Barred(Apply(s, e), id, until, delay)
  {
  }

  lemma ClaimKeepsBar(s: Sys, e: Event, id: nat, until: int, delay: int)
    requires Barred(s, id, until, delay) && (e.ClaimEvent? || e.ClaimNextEvent?)
    ensures Barred(Apply(s, e), id, until, delay)
    ensures Wins(s, e, id) ==> s.now >= until
  {
    if e.ClaimNextEvent? && NextDue(s.rows, s.now).Some? { BestIsDue(s, NextDue(s.rows, s.now).value); }
  }

  lemma WakeKeepsBar(s: Sys, e: Event, id: nat, until: int, delay: int)
    requires Barred(s, id, until, delay) && e.WakeEvent?
    ensures Barred(Apply(s, e), id, until, delay)
  {
    var keys, n := WakeKeys(s.rows, e.exhausted), if e.limit < 1 then 1 else e.limit;
    ChosenMeaning(keys, n);
    if id in Chosen(keys, n) { assert id in Candidates(keys); }
  }

  /** No step but a transition lifts the bar, and no claim passes it. */
  lemma BarredStep(s: Sys, e: Event, id: nat, until: int, delay: int)
    requires Barred(s, id, until, delay) && !e.TransitionEvent? && (e.CloseEvent? ==> e.delay >= delay)
    ensures Barred(Apply(s, e), id, until, delay)
    ensures Wins(s, e, id) ==> s.now >= until
  {
    hide Opened, Closed, Claimed, ClaimedNext, Woken, NextDue, Claimable;
    match e
    case Tick(_) =>
    case OpenEvent(_, _, _, _, _) => OpenKeepsBar(s, e, id, until, delay);
    case CloseEvent(_, _, _, _, _, _, _) => CloseKeepsBar(s, e, id, until, delay);
    case ClaimEvent(_, _, _) => ClaimKeepsBar(s, e, id, until, delay);
    case ClaimNextEvent(_, _) => ClaimKeepsBar(s, e, id, until, delay);
    case WakeEvent(_, _) => WakeKeepsBar(s, e, id, until, delay);
  }

  lemma {:induction false} BarredLasts(s: Sys, es: seq<Event>, id: nat, until: int, delay: int)
    requires Barred(s, id, until, delay) && Steady(es, delay)
    ensures Barred(Run(s, es), id, until, delay)
  {
    if es != [] {
      hide Apply, Barred;
      BarredLasts(s, es[..|es| - 1], id, until, delay);
      BarredStep(Run(s, es[..|es| - 1]), es[|es| - 1], id, until, delay);
    }
  }

  /** Time goes on to the end of the lease and to the schedule. */
  function Wait(c: Cycle, now: int): nat {
    var a := if c.leaseExpires.Some? && c.leaseExpires.value > now then c.leaseExpires.value - now else 0;
    var b := if c.nextAttempt.Some? && c.nextAttempt.value > now then c.nextAttempt.value - now else 0;
    if a < b then b else a
  }

  lemma RunTwo(s: Sys, x: Event, y: Event)
    ensures Run(s, [x, y]) == Apply(Apply(s, x), y)
  {
    assert [x, y][..1] == [x];
    RunOne(s, x);
  }

  lemma ScheduledIsClaimed(s: Sys, id: nat, owner: string, until: int)
    requires id < |s.rows| && s.now < until && LeaseEnds(s.rows[id], until) && Recoverable(s.rows[id].status)
    requires s.rows[id].nextAttempt.Some? ==> s.rows[id].nextAttempt.value < until
    ensures var t := Apply(s, Tick(Wait(s.rows[id], s.now)));
            t.now < until && Wins(t, ClaimEvent(id, owner, 1), id)
  {
  }

  /** After its step the cycle is scheduled before `until`, with the lease that it had. */
  ghost predicate Schedules(s: Sys, e: Event, id: nat, until: int)
    requires id < |s.rows|
  {
    var t := Apply(s, e);
    && t.now == s.now && id < |t.rows| && t.rows[id].leaseExpires == s.rows[id].leaseExpires
    && Recoverable(t.rows[id].status) && (t.rows[id].nextAttempt.Some? ==> t.rows[id].nextAttempt.value < until)
  }

  lemma AllAreWoken(rows: Rows, id: nat)
    requires id < |rows| && rows[id].status == MediaBlocked
    ensures id in ToWake(rows, {}, |rows|)
  {
    hide Chosen;
    var keys := WakeKeys(rows, {});
    CandidatesFit(keys);
    ChosenMeaning(keys, |rows|);
    assert id in Candidates(keys);
  }

  lemma WakeSchedules(s: Sys, id: nat, until: int)
    requires id < |s.rows| && s.now < until && s.rows[id].status == MediaBlocked
    ensures Schedules(s, WakeEvent({}, |s.rows|), id, until)
  {
    hide ToWake;
    AllAreWoken(s.rows, id);
    assert Apply(s, WakeEvent({}, |s.rows|)).rows[id] == Wake(s.rows[id], s.now);
  }

  lemma {:induction false} CandidatesFit(keys: Keys)
    ensures |Candidates(keys)| <= |keys|
  {
    if keys != [] {
      var n := |keys| - 1;
      CandidatesFit(keys[..n]);
      assert Candidates(keys) == Candidates(keys[..n]) + if keys[n].Some? then {n} else {};
    }
  }

  function Closing(s: Sys, id: nat, delay: int): Event
    requires id < |s.rows|
  {
    CloseEvent(s.rows[id].conversation, "", 0, UnusedKey(s.rows), "x", None, delay)
  }

  lemma CloseSchedules(s: Sys, id: nat, until: int, delay: int)
    requires Inv(s.rows) && id < |s.rows| && s.rows[id].closed.None? && s.now + delay < until
    ensures Schedules(s, Closing(s, id, delay), id, until)
  {
    var key := UnusedKey(s.rows);
    assert ByCloseKey(s.rows, key).None?;
    var open := OpenOf(s.rows, s.rows[id].conversation);
    assert open.Some?;
    assert open.value == id;
  }

  /** When some continuation without a transition lets an owner claim the cycle before `until`: exactly when the
      lease ends before that, and the cycle comes due before that. */
  lemma ClaimableBeforeExactly(s: Sys, id: nat, owner: string, until: int, delay: int)
    requires Inv(s.rows) && id < |s.rows|
    ensures CanBeClaimed(s, id, owner, until, delay) <==>
            s.now < until && LeaseEnds(s.rows[id], until) && ComesDue(s.rows[id], s.now, until, delay)
  {
    hide Inv, Apply, Wins;
    if Barred(s, id, until, delay) {
      forall es, claim ensures !ClaimedBefore(s, es, claim, id, owner, until, delay) {
        if ClaimedBefore(s, es, claim, id, owner, until, delay) {
          BarredLasts(s, es, id, until, delay);
          WinIsClaim(Run(s, es), claim, id);
          ClaimKeepsBar(Run(s, es), claim, id, until, delay);
        }
      }
    } else {
      var c := s.rows[id];
      if Recoverable(c.status) && (c.nextAttempt.None? || c.nextAttempt.value < until) {
        RunOne(s, Tick(Wait(c, s.now)));
        ScheduledIsClaimed(s, id, owner, until);
        assert ClaimedBefore(s, [Tick(Wait(c, s.now))], ClaimEvent(id, owner, 1), id, owner, until, delay);
      } else {
        var e := if c.status == MediaBlocked then WakeEvent({}, |s.rows|) else Closing(s, id, delay);
        if c.status == MediaBlocked { WakeSchedules(s, id, until); } else { CloseSchedules(s, id, until, delay); }
        var t := Apply(s, e);
        var tick := Tick(Wait(t.rows[id], t.now));
        ScheduledIsClaimed(t, id, owner, until);
        RunTwo(s, e, tick);
        assert ClaimedBefore(s, [e, tick], ClaimEvent(id, owner, 1), id, owner, until, delay);
      }
    }
  }

  lemma WinIsClaim(s: Sys, e: Event, id: nat)
    requires Wins(s, e, id)
    ensures e.ClaimEvent? || e.ClaimNextEvent?
  {
  }

  /** When a transition lets another owner in before the lease of an earlier claim ends: after the claim and any
      run, exactly when the row that it leaves has no lease or an earlier end of it, and is scheduled before that
      end, or is blocked by media, so that a wake schedules it, or is still open, so that a close does. */
  lemma TransitionOpensLease(s: Sys, e: Event, es: seq<Event>, id: nat, status: Status, expected: seq<Status>, p: Patch,
                             other: string, delay: int)
    requires Inv(s.rows) && Wins(s, e, id) && Permitted(p)
    requires var u := Run(Apply(s, e), es);
             u.now < Until(s, e) && id < |u.rows| && Expected(u.rows[id], expected)
    ensures var u, until := Run(Apply(s, e), es), Until(s, e);
            var c := Assigned(u.rows[id], status, p, u.now);
            CanBeClaimed(Apply(u, TransitionEvent(id, status, expected, p)), id, other, until, delay) <==>
            && (c.leaseExpires.None? || c.leaseExpires.value < until)
            && (|| (Recoverable(c.status) && (c.nextAttempt.None? || c.nextAttempt.value < until))
                || c.status == MediaBlocked
                || (c.closed.None? && u.now + delay < until))
  {
    var u := Run(Apply(s, e), es);
    StepKept(s, e);
    CycleSafety.RunKept(Apply(s, e), es);
    var move := TransitionEvent(id, status, expected, p);
    StepKept(u, move);
    AssignedBy(u, move);
    hide Inv, Assigned, Apply, Run;
    ClaimableBeforeExactly(Apply(u, move), id, other, Until(s, e), delay);
  }

  lemma AssignedBy(s: Sys, e: Event)
    requires e.TransitionEvent? && Permitted(e.p) && e.id < |s.rows| && Expected(s.rows[e.id], e.expected)
    ensures var t := Apply(s, e);
            t.now == s.now && e.id < |t.rows| && t.rows[e.id] == Assigned(s.rows[e.id], e.status, e.p, s.now)
  {
  }

  /** A step of a run that lifts the bar. */
  ghost predicate Lifts(s: Sys, es: seq<Event>, m: nat, id: nat, until: int, delay: int)
    requires m < |es|
  {
    && es[m].TransitionEvent?
    && Barred(Run(s, es[..m]), id, until, delay) && !Barred(Run(s, es[..m + 1]), id, until, delay)
  }

  ghost predicate Lifted(s: Sys, es: seq<Event>, a: nat, b: nat, id: nat, until: int, delay: int)
    requires b <= |es|
  {
    exists m :: a < m < b && Lifts(s, es, m, id, until, delay)
  }

  lemma {:induction false} BarLasts(s: Sys, es: seq<Event>, a: nat, b: nat, id: nat, until: int, delay: int)
    requires a < b <= |es| && Wins(Run(s, es[..a]), es[a], id) && until == Until(Run(s, es[..a]), es[a])
    requires (forall e :: e in es && e.CloseEvent? ==> e.delay >= delay) && !Lifted(s, es, a, b, id, until, delay)
    ensures Barred(Run(s, es[..b]), id, until, delay)
    decreases b
  {
    hide Apply, Wins, Until;
    RunPrefix(s, es, b - 1);
    if b == a + 1 {
      WinTakesLease(Run(s, es[..a]), es[a], id);
      hide Run;
    } else {
      BarLasts(s, es, a, b - 1, id, until, delay);
      hide Barred, Run;
      if es[b - 1].TransitionEvent? {
        assert !Lifts(s, es, b - 1, id, until, delay);
      } else {
        BarredStep(Run(s, es[..b - 1]), es[b - 1], id, until, delay);
      }
    }
  }

  /** A claim before the end of an earlier lease needs a transition in between after which, by the condition
      above, the cycle can be claimed; no transition that leaves the bar up lets it in. */
  lemma EarlyClaimNeedsLift(s: Sys, es: seq<Event>, a: nat, b: nat, id: nat, delay: int)
    requires a < b < |es| && Wins(Run(s, es[..a]), es[a], id) && Wins(Run(s, es[..b]), es[b], id)
    requires forall e :: e in es && e.CloseEvent? ==> e.delay >= delay
    ensures var until := Until(Run(s, es[..a]), es[a]);
            Run(s, es[..b]).now >= until || Lifted(s, es, a, b, id, until, delay)
  {
    var until := Until(Run(s, es[..a]), es[a]);
    if !Lifted(s, es, a, b, id, until, delay) {
      BarLasts(s, es, a, b, id, until, delay);
      WinIsClaim(Run(s, es[..b]), es[b], id);
      ClaimKeepsBar(Run(s, es[..b]), es[b], id, until, delay);
    }
  }

  // ---- Draining ------------------------------------------------------------------------------------------

  function DueSet(rows: Rows, now: int): set<nat> { set i | 0 <= i < |rows| && Due(rows[i], now) }

  function ScheduledSet(rows: Rows, now: int): set<nat> { set i | 0 <= i < |rows| && Scheduled(rows[i], now) }

  function LeasedSet(rows: Rows, now: int): set<nat> { set i | 0 <= i < |rows| && Leased(rows[i], now) }

  /** `_cycle_work_metrics_sync`. */
  datatype Metrics = Metrics(due: nat, scheduled: nat, leased: nat)

  function WorkMetrics(rows: Rows, now: int): Metrics {
    Metrics(|DueSet(rows, now)|, |ScheduledSet(rows, now)|, |LeasedSet(rows, now)|)
  }

  /** Among the cycles that are neither open, nor blocked, nor at an end, those that are not due are exactly those that
      are scheduled for later or leased. */
  lemma MetricsMeaning(c: Cycle, now: int)
    requires c.status != Open && c.status != MediaBlocked && c.status != Completed && c.status != CompletedWithWarnings
    requires c.status != Failed
    ensures Scheduled(c, now) <==> c.nextAttempt.Some? && !(c.nextAttempt.value <= now)
    ensures Leased(c, now) <==> c.leaseExpires.Some? && !(c.leaseExpires.value <= now)
    ensures !Due(c, now) <==> Scheduled(c, now) || Leased(c, now)
  {
  }

  /** The three counted sets, by what each cycle is. */
  lemma MetricSets(rows: Rows, now: int, id: nat)
    ensures id in DueSet(rows, now) <==> id < |rows| && Due(rows[id], now)
    ensures id in ScheduledSet(rows, now) <==> id < |rows| && Scheduled(rows[id], now)
    ensures id in LeasedSet(rows, now) <==> id < |rows| && Leased(rows[id], now)
    ensures WorkMetrics(rows, now) == Metrics(|DueSet(rows, now)|, |ScheduledSet(rows, now)|, |LeasedSet(rows, now)|)
  {
  }

  lemma NoMetrics(c: Cycle, now: int)
    requires c.status in {Open, MediaBlocked, Completed, CompletedWithWarnings, Failed}
    ensures !Due(c, now) && !Scheduled(c, now) && !Leased(c, now)
  {
  }

  datatype Call = Call(owner: string, seconds: int)

  /** What repeated calls of `claim_next` at one time return, and what they leave. */
  function Results(rows: Rows, calls: seq<Call>, now: int): (results: seq<Option<nat>>)
    ensures |results| == |calls|
    decreases |calls|
  {
    if calls == [] then []
    else [NextDue(rows, now)] + Results(ClaimedNext(rows, calls[0].owner, calls[0].seconds, now), calls[1..], now)
  }

  function RowsAfterCalls(rows: Rows, calls: seq<Call>, now: int): Rows
    decreases |calls|
  {
    if calls == [] then rows
    else RowsAfterCalls(ClaimedNext(rows, calls[0].owner, calls[0].seconds, now), calls[1..], now)
  }

  lemma DueCandidates(rows: Rows, now: int)
    ensures Candidates(DueKeys(rows, now)) == DueSet(rows, now)
  {
  }

  /** One claim takes its cycle out of the due ones and into the leased ones. */
  lemma ClaimMoves(rows: Rows, call: Call, now: int)
    requires call.seconds > 0 && NextDue(rows, now).Some?
    ensures var id, next := NextDue(rows, now).value, ClaimedNext(rows, call.owner, call.seconds, now);
            && id in Candidates(DueKeys(rows, now))
            && DueKeys(next, now) == DueKeys(rows, now)[id := None]
            && WorkMetrics(rows, now).due > 0
            && WorkMetrics(next, now) == Metrics(WorkMetrics(rows, now).due - 1, WorkMetrics(rows, now).scheduled,
                                                 WorkMetrics(rows, now).leased + 1)
  {
    var id, next := NextDue(rows, now).value, ClaimedNext(rows, call.owner, call.seconds, now);
    DueCandidates(rows, now);
    assert Due(rows[id], now) && !Due(next[id], now);
    assert DueKeys(next, now) == DueKeys(rows, now)[id := None];
    assert DueSet(next, now) == DueSet(rows, now) - {id};
    assert ScheduledSet(next, now) == ScheduledSet(rows, now);
    assert LeasedSet(next, now) == LeasedSet(rows, now) + {id} && id !in LeasedSet(rows, now);
  }

  function Min(a: nat, b: nat): nat { if a < b then a else b }

  ghost predicate AllPositive(calls: seq<Call>) { forall c :: c in calls ==> c.seconds > 0 }

  /** The results of `calls`: the chosen cycles, then nothing. */
  ghost predicate Take(results: seq<Option<nat>>, chosen: seq<nat>) {
    && |chosen| <= |results|
    && forall i :: 0 <= i < |results| ==> results[i] == if i < |chosen| then Some(chosen[i]) else None
  }

  lemma TakeMore(results: seq<Option<nat>>, chosen: seq<nat>, id: nat)
    requires Take(results, chosen)
    ensures Take([Some(id)] + results, [id] + chosen)
  {
  }

  lemma TakeNone(results: seq<Option<nat>>)
    requires Take(results, [])
    ensures Take([None] + results, [])
  {
  }

  /** Repeated `claim_next` at one time, with positive leases, takes the first due cycles in order, then
      nothing. */
  lemma {:induction false} CallsTakeFirst(rows: Rows, calls: seq<Call>, now: int)
    requires AllPositive(calls)
    ensures Take(Results(rows, calls, now), Chosen(DueKeys(rows, now), |calls|))
    decreases |calls|
  {
    if calls != [] {
      var next := ClaimedNext(rows, calls[0].owner, calls[0].seconds, now);
      CallsTakeFirst(next, calls[1..], now);
      if NextDue(rows, now).Some? {
        ClaimMoves(rows, calls[0], now);
        TakeMore(Results(next, calls[1..], now), Chosen(DueKeys(next, now), |calls| - 1), NextDue(rows, now).value);
      } else {
        TakeNone(Results(next, calls[1..], now));
      }
    }
  }

  /** Each of them moves one cycle from due to leased, and the scheduled ones stay. */
  lemma {:induction false} CallsMove(rows: Rows, calls: seq<Call>, now: int)
    requires AllPositive(calls)
    ensures var before, after := WorkMetrics(rows, now), WorkMetrics(RowsAfterCalls(rows, calls, now), now);
            var n := Min(before.due, |calls|);
            after == Metrics(before.due - n, before.scheduled, before.leased + n)
    decreases |calls|
  {
    if calls != [] {
      CallsMove(ClaimedNext(rows, calls[0].owner, calls[0].seconds, now), calls[1..], now);
      if NextDue(rows, now).Some? {
        ClaimMoves(rows, calls[0], now);
      } else {
        DueCandidates(rows, now);
        assert DueSet(rows, now) == {};
      }
    }
  }

  ghost predicate InOrder(ids: seq<nat>, keys: Keys) {
    && (forall i :: 0 <= i < |ids| ==> ids[i] in Candidates(keys))
    && (forall i, j :: 0 <= i < j < |ids| ==> ids[i] != ids[j] && Before(keys, ids[i], ids[j]))
  }

  /** With as many calls as there are due cycles, all of them are taken: exactly the due ones, each once, in
      the order of COALESCE(next_attempt_at, updated_at) and id. The metrics follow, and a further call
      returns none. */
  lemma CallsDrain(rows: Rows, calls: seq<Call>, now: int)
    requires AllPositive(calls) && |calls| >= |DueSet(rows, now)|
    ensures var taken, before := Chosen(DueKeys(rows, now), |calls|), WorkMetrics(rows, now);
            && Take(Results(rows, calls, now), taken)
            && InOrder(taken, DueKeys(rows, now)) && (forall id :: id in taken <==> id in DueSet(rows, now))
            && WorkMetrics(RowsAfterCalls(rows, calls, now), now) == Metrics(0, before.scheduled, before.leased + before.due)
            && NextDue(RowsAfterCalls(rows, calls, now), now).None?
  {
    CallsTakeFirst(rows, calls, now);
    CallsMove(rows, calls, now);
    DueCandidates(rows, now);
    ChosenMeaning(DueKeys(rows, now), |calls|);
    NothingDue(RowsAfterCalls(rows, calls, now), now);
  }

  lemma NothingDue(rows: Rows, now: int)
    ensures WorkMetrics(rows, now).due == 0 <==> NextDue(rows, now).None?
  {
    DueCandidates(rows, now);
  }
}
