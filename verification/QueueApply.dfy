/** The reviewed apply of one family of legacy lists: the second snapshot and the applies history of
    `scripts/retire_validated_legacy_redis_queues.py`. */
module QueueApply {
  import opened Common
  import opened QueueRetirement

  datatype Family = IA | Audio | Image

  /** The queue and the dead-letter list of a family: values, or their digests. */
  datatype Lists = Lists(queue: seq<string>, dead: seq<string>) {
    function Values(): set<string> { (set v | v in queue) + (set v | v in dead) }
  }

  datatype Store = Store(ia: Lists, audio: Lists, image: Lists) {
    function Of(f: Family): Lists {
      match f case IA => ia case Audio => audio case Image => image
    }

    function With(f: Family, lists: Lists): Store {
      match f case IA => this.(ia := lists) case Audio => this.(audio := lists) case Image => this.(image := lists)
    }

    function Values(): set<string> { ia.Values() + audio.Values() + image.Values() }
  }

  function DigestsOf(digest: string -> string, l: Lists): Lists { Lists(Digests(digest, l.queue), Digests(digest, l.dead)) }

  function Snapshot(digest: string -> string, s: Store): Store {
    Store(DigestsOf(digest, s.ia), DigestsOf(digest, s.audio), DigestsOf(digest, s.image))
  }

  predicate Complete(s: Store, maxItems: nat) {
    forall f: Family :: |s.Of(f).queue| <= maxItems && |s.Of(f).dead| <= maxItems
  }

  predicate Unmoved(before: Lists, now: Lists, applied: bool) {
    if applied then |now.queue| <= |before.queue| && |now.dead| <= |before.dead| else now == before
  }

  /** One of the two lists is longer. */
  predicate Grew(before: Lists, now: Lists) { |now.queue| > |before.queue| || |now.dead| > |before.dead| }

  lemma UnmovedMeaning(before: Lists, now: Lists)
    ensures Unmoved(before, now, false) <==> now.queue == before.queue && now.dead == before.dead
    ensures Unmoved(before, now, true) <==> !Grew(before, now)
  {
  }

  /** The family loop of `_assert_second_snapshot`, on digests. The result is the family that is refused. */
  method AssertSecondSnapshot(baseline: Store, current: Store, applied: set<Family>) returns (refused: Option<Family>)
    ensures refused.None? <==> forall f: Family :: Unmoved(baseline.Of(f), current.Of(f), f in applied)
    ensures refused.Some? ==> !Unmoved(baseline.Of(refused.value), current.Of(refused.value), refused.value in applied)
    ensures refused.None? <==>
            && (forall f: Family :: f !in applied ==> current.Of(f) == baseline.Of(f))
            && (forall f: Family :: f in applied ==> !Grew(baseline.Of(f), current.Of(f)))
  {
    var families := [IA, Audio, Image];
    for i := 0 to 3
      invariant forall j :: 0 <= j < i ==> Unmoved(baseline.Of(families[j]), current.Of(families[j]), families[j] in applied)
    {
      var f := families[i];
      var before, now := baseline.Of(f), current.Of(f);
      if f in applied {
        if |now.queue| > |before.queue| || |now.dead| > |before.dead| {
          return Some(f);
        }
      } else if now != before {
        return Some(f);
      }
    }
    forall f: Family ensures Unmoved(baseline.Of(f), current.Of(f), f in applied) {
      assert f == families[0] || f == families[1] || f == families[2];
    }
    refused := None;
  }

  /** The digest does not collide on these values. */
  ghost predicate Tells(digest: string -> string, values: set<string>) {
    forall a, b :: a in values && b in values && digest(a) == digest(b) ==> a == b
  }

  lemma DigestsTell(digest: string -> string, a: seq<string>, b: seq<string>, values: set<string>)
    requires Tells(digest, values) && (forall v :: v in a ==> v in values) && (forall v :: v in b ==> v in values)
    ensures Digests(digest, a) == Digests(digest, b) <==> a == b
  {
    if Digests(digest, a) == Digests(digest, b) {
      assert |a| == |b|;
      forall i | 0 <= i < |a| ensures a[i] == b[i] {
        assert Digests(digest, a)[i] == Digests(digest, b)[i];
      }
    }
  }

  /** The check on digests is the check on values: a family not yet applied holds exactly the values that were
      reviewed, in the same order. */
  lemma SecondSnapshotMeaning(digest: string -> string, reviewed: Store, now: Store, applied: set<Family>)
    requires Tells(digest, reviewed.Values() + now.Values())
    ensures (forall f: Family :: Unmoved(Snapshot(digest, reviewed).Of(f), Snapshot(digest, now).Of(f), f in applied)) <==>
            (forall f: Family :: Unmoved(reviewed.Of(f), now.Of(f), f in applied))
  {
    forall f: Family
      ensures Unmoved(Snapshot(digest, reviewed).Of(f), Snapshot(digest, now).Of(f), f in applied) <==>
              Unmoved(reviewed.Of(f), now.Of(f), f in applied)
    {
      var values := reviewed.Values() + now.Values();
      DigestsTell(digest, reviewed.Of(f).queue, now.Of(f).queue, values);
      DigestsTell(digest, reviewed.Of(f).dead, now.Of(f).dead, values);
    }
  }

  // ---- One command ---------------------------------------------------------------------------------------

  /** The report: the reviewed snapshot, and the families that it records as applied. */
  datatype Report = Report(baseline: Store, applies: set<Family>)

  /** The digest, the bound of the inventories, and what they validate: a family, its dead-letter list or not,
      and a value. */
  datatype Setting = Setting(digest: string -> string, maxItems: nat, valid: (Family, bool, string) -> bool) {
    function Validated(l: Lists, f: Family): Lists {
      Lists(Where(l.queue, v => valid(f, false, v), true), Where(l.dead, v => valid(f, true, v), true))
    }

    function Rest(l: Lists, f: Family): Lists {
      Lists(Where(l.queue, v => valid(f, false, v), false), Where(l.dead, v => valid(f, true, v), false))
    }
  }

  /** The lists may be changed under this report: they are complete, and unmoved since the review. */
  predicate Matches(setting: Setting, r: Report, s: Store) {
    Complete(s, setting.maxItems) && forall g: Family :: Unmoved(r.baseline.Of(g), Snapshot(setting.digest, s).Of(g), g in r.applies)
  }

  predicate Applicable(setting: Setting, r: Report, s: Store, f: Family) { f !in r.applies && Matches(setting, r, s) }

  /** The lists after `n` of the removals of the values `v`: the queue first, then the dead letters. */
  function Partial(l: Lists, v: Lists, n: nat): Lists
    requires n <= |v.queue| + |v.dead|
  {
    if n <= |v.queue| then Lists(RemoveMany(l.queue, v.queue[..n]), l.dead)
    else Lists(RemoveMany(l.queue, v.queue), RemoveMany(l.dead, v.dead[..n - |v.queue|]))
  }

  /** One LREM: removal number `n`, counted from 0. */
  function RemoveNext(l: Lists, v: Lists, n: nat): Lists
    requires n < |v.queue| + |v.dead|
  {
    if n < |v.queue| then l.(queue := RemoveFirst(l.queue, v.queue[n]))
    else l.(dead := RemoveFirst(l.dead, v.dead[n - |v.queue|]))
  }

  lemma RemoveManyNext(list: seq<string>, values: seq<string>, n: nat)
    requires n < |values|
    ensures RemoveMany(list, values[..n + 1]) == RemoveFirst(RemoveMany(list, values[..n]), values[n])
    ensures RemoveMany(list, values[..0]) == list
  {
    assert values[..n + 1][..n] == values[..n];
  }

  lemma PartialStep(l: Lists, v: Lists, n: nat)
    requires n < |v.queue| + |v.dead|
    ensures Partial(l, v, n + 1) == RemoveNext(Partial(l, v, n), v, n)
  {
    hide RemoveMany, RemoveFirst;
    if n < |v.queue| {
      RemoveManyNext(l.queue, v.queue, n);
    } else {
      assert v.queue[..|v.queue|] == v.queue;
      RemoveManyNext(l.dead, v.dead, n - |v.queue|);
    }
  }

  lemma PrefixSize(list: seq<string>, p: string -> bool, n: nat)
    requires n <= |Where(list, p, true)|
    ensures |RemoveMany(list, Where(list, p, true)[..n])| == |list| - n
  {
    RetiringIsFiltering(list, p);
    PrefixFound(list, Where(list, p, true), n);
    RemovalSizes(list, Where(list, p, true)[..n]);
  }

  /** Each removal takes one entry, and all of them leave what is not validated. */
  lemma PartialSize(setting: Setting, l: Lists, f: Family, n: nat)
    requires n <= |setting.Validated(l, f).queue| + |setting.Validated(l, f).dead|
    ensures var v, p := setting.Validated(l, f), Partial(l, setting.Validated(l, f), n);
            && |p.queue| + |p.dead| + n == |l.queue| + |l.dead| && |p.queue| <= |l.queue| && |p.dead| <= |l.dead|
            && (n == |v.queue| + |v.dead| ==> p == setting.Rest(l, f))
  {
    hide Where;
    var v, p, q := setting.Validated(l, f), w => setting.valid(f, false, w), w => setting.valid(f, true, w);
    RetiringIsFiltering(l.queue, p);
    RetiringIsFiltering(l.dead, q);
    PrefixSize(l.queue, p, if n <= |v.queue| then n else |v.queue|);
    PrefixSize(l.dead, q, if n <= |v.queue| then 0 else n - |v.queue|);
    assert v.queue[..|v.queue|] == v.queue && v.dead[..|v.dead|] == v.dead;
  }

  /** The report file and the lists, and `_run_apply` when nothing else is at work. */
  class Retirement {
    var report: Report
    var store: Store

    constructor (r: Report, s: Store)
      ensures report == r && store == s
    {
      report, store := r, s;
    }

    /** `cleared` stands for the checks of operator, revision, confirmation, recovery point and runtime. */
    method RunApply(setting: Setting, f: Family, cleared: bool) returns (removed: Option<nat>)
      modifies this
      ensures removed.Some? <==> cleared && Applicable(setting, old(report), old(store), f)
      ensures removed.None? ==> report == old(report) && store == old(store)
      ensures removed.Some? ==>
                && report == old(report).(applies := old(report).applies + {f})
                && store == old(store).With(f, setting.Rest(old(store).Of(f), f))
                && var v := setting.Validated(old(store).Of(f), f); removed.value == |v.queue| + |v.dead|
    {
      if !cleared || f in report.applies || !Complete(store, setting.maxItems) {
        return None;
      }
      var refused := AssertSecondSnapshot(report.baseline, Snapshot(setting.digest, store), report.applies);
      if refused.Some? {
        return None;
      }
      var l := store.Of(f);
      var v := setting.Validated(l, f);
      var total := |v.queue| + |v.dead|;
      assert Partial(l, v, 0) == l;
      assert store == store.With(f, l);
      for n := 0 to total
        invariant store == old(store).With(f, Partial(l, v, n)) && report == old(report)
      {
        PartialStep(l, v, n);
        store := store.With(f, RemoveNext(store.Of(f), v, n));
      }
      PartialSize(setting, l, f, total);
      report := report.(applies := report.applies + {f});
      removed := Some(total);
    }
  }

  // ---- Commands at work together ---------------------------------------------------------------------------

  /** A command between its reads and writes. `copy` is the report as it read it, and `readAt` counts the
      reports that had been written by then. */
  datatype Command =
    | Opened(family: Family, copy: Report, readAt: nat)
    | Checked(family: Family, copy: Report, readAt: nat)
    | Removing(family: Family, copy: Report, readAt: nat, values: Lists, done: nat)
  {
    predicate Finished() { Removing? && done == |values.queue| + |values.dead| }
  }

  /** `completed` are the families whose command wrote the report, in order. */
  datatype Sys = Sys(report: Report, store: Store, commands: map<nat, Command>, completed: seq<Family>)

  datatype Step =
    | Read(c: nat, family: Family)
    | Check(c: nat)
    | Take(c: nat)
    | Remove(c: nat)
    | Write(c: nat)
    | Crash(c: nat)
    | Change(store: Store)

  function Go(s: Sys, c: nat, to: Command): Sys { s.(commands := s.commands[c := to]) }

  function Quit(s: Sys, c: nat): Sys { s.(commands := s.commands - {c}) }

  predicate MayWrite(s: Sys, c: nat) { c in s.commands && s.commands[c].Finished() }

  function Wrote(s: Sys, c: nat): Sys
    requires MayWrite(s, c)
  {
    var cmd := s.commands[c];
    Quit(s, c).(report := cmd.copy.(applies := cmd.copy.applies + {cmd.family}), completed := s.completed + [cmd.family])
  }

  /** A command reads the report once, checks the lists against its copy, takes the validated values, removes
      them one by one, and writes its copy back with its family added. Nothing locks the report. */
  function Apply(setting: Setting, s: Sys, step: Step): Sys {
    match step
    case Read(c, f) =>
      if c !in s.commands && f !in s.report.applies then Go(s, c, Opened(f, s.report, |s.completed|)) else s
    case Check(c) =>
      if c in s.commands && s.commands[c].Opened? then
        var cmd := s.commands[c];
        if Matches(setting, cmd.copy, s.store) then Go(s, c, Checked(cmd.family, cmd.copy, cmd.readAt)) else Quit(s, c)
      else s
    case Take(c) =>
      if c in s.commands && s.commands[c].Checked? then
        var cmd := s.commands[c];
        var l := s.store.Of(cmd.family);
        if |l.queue| <= setting.maxItems && |l.dead| <= setting.maxItems then
          Go(s, c, Removing(cmd.family, cmd.copy, cmd.readAt, setting.Validated(l, cmd.family), 0))
        else Quit(s, c)
      else s
    case Remove(c) =>
      if c in s.commands && s.commands[c].Removing? && s.commands[c].done < |s.commands[c].values.queue| + |s.commands[c].values.dead| then
        var cmd := s.commands[c];
        Go(s, c, cmd.(done := cmd.done + 1)).(
          store := s.store.With(cmd.family, RemoveNext(s.store.Of(cmd.family), cmd.values, cmd.done)))
      else s
    case Write(c) => if MayWrite(s, c) then Wrote(s, c) else s
    case Crash(c) => if c in s.commands then Quit(s, c) else s
    case Change(store) => s.(store := store)
  }

  function Run(setting: Setting, s: Sys, steps: seq<Step>): Sys {
    if steps == [] then s else Apply(setting, Run(setting, s, steps[..|steps| - 1]), steps[|steps| - 1])
  }

  function Start(r: Report, s: Store): Sys { Sys(r, s, map[], []) }

  function Families(fs: seq<Family>): set<Family> { set f | f in fs }

  ghost predicate CommandOk(r: Report, s: Sys, cmd: Command) {
    && cmd.readAt <= |s.completed| && cmd.family !in cmd.copy.applies
    && cmd.copy.applies <= r.applies + Families(s.completed[..cmd.readAt])
    && (cmd.readAt == |s.completed| ==> cmd.copy == s.report)
  }

  ghost predicate Inv(r: Report, s: Sys) {
    && s.report.applies <= r.applies + Families(s.completed)
    && forall c :: c in s.commands ==> CommandOk(r, s, s.commands[c])
  }

  /** No family was applied to the end more than once, and the report has every entry. */
  ghost predicate Once(r: Report, s: Sys) {
    && (forall i, j :: 0 <= i < j < |s.completed| ==> s.completed[i] != s.completed[j])
    && (forall f :: f in s.completed ==> f !in r.applies)
    && s.report.applies == r.applies + Families(s.completed)
  }

  /** The command writes although another one wrote the report since it read it: the two overlap. */
  predicate Overlaps(s: Sys, step: Step) {
    step.Write? && MayWrite(s, step.c) && s.commands[step.c].readAt < |s.completed|
  }

  lemma WriteKept(r: Report, s: Sys, c: nat)
    requires Inv(r, s) && MayWrite(s, c)
    ensures Inv(r, Wrote(s, c))
  {
    var cmd, t := s.commands[c], Wrote(s, c);
    assert CommandOk(r, s, cmd);
    FamiliesPrefix(s.completed, cmd.readAt);
    assert Families(t.completed) == Families(s.completed) + {cmd.family};
    forall d | d in t.commands ensures CommandOk(r, t, t.commands[d]) {
      assert CommandOk(r, s, s.commands[d]);
      assert t.completed[..t.commands[d].readAt] == s.completed[..s.commands[d].readAt];
    }
  }

  lemma FamiliesPrefix(fs: seq<Family>, n: nat)
    requires n <= |fs|
    ensures Families(fs[..n]) <= Families(fs)
  {
  }

  lemma StepKept(setting: Setting, r: Report, s: Sys, step: Step)
    requires Inv(r, s)
    ensures Inv(r, Apply(setting, s, step))
  {
    if step.Write? && MayWrite(s, step.c) {
      WriteKept(r, s, step.c);
    } else {
      var t := Apply(setting, s, step);
      assert s.completed[..|s.completed|] == s.completed;
      forall c | c in t.commands ensures CommandOk(r, t, t.commands[c]) {
        if c in s.commands { assert CommandOk(r, s, s.commands[c]); }
      }
    }
  }

  lemma {:induction false} RunKept(setting: Setting, r: Report, store: Store, steps: seq<Step>)
    ensures Inv(r, Run(setting, Start(r, store), steps))
  {
    if steps != [] {
      RunKept(setting, r, store, steps[..|steps| - 1]);
      StepKept(setting, r, Run(setting, Start(r, store), steps[..|steps| - 1]), steps[|steps| - 1]);
    }
  }

  /** One write keeps the account exactly when it does not overlap. */
  lemma WriteOnce(r: Report, s: Sys, c: nat)
    requires Inv(r, s) && MayWrite(s, c)
    ensures Once(r, Wrote(s, c)) <==> Once(r, s) && !Overlaps(s, Write(c))
  {
    var cmd, t := s.commands[c], Wrote(s, c);
    var n := |s.completed|;
    assert CommandOk(r, s, cmd);
    assert t.completed[n] == cmd.family;
    assert Families(t.completed) == Families(s.completed) + {cmd.family};
    assert s.completed[..n] == s.completed;
    if Once(r, t) {
      forall i | 0 <= i < n ensures s.completed[i] != cmd.family && s.completed[i] !in r.applies {
        assert t.completed[i] == s.completed[i] && t.completed[i] in t.completed;
      }
      forall i, j | 0 <= i < j < n ensures s.completed[i] != s.completed[j] {
        assert t.completed[i] != t.completed[j];
      }
      if cmd.readAt < n { NotBefore(s.completed, cmd.readAt); }
    }
  }

  lemma NotBefore(fs: seq<Family>, n: nat)
    requires n < |fs| && forall i, j :: 0 <= i < j < |fs| ==> fs[i] != fs[j]
    ensures fs[n] !in Families(fs[..n]) && fs[n] in Families(fs)
  {
  }

  ghost predicate OverlapAt(setting: Setting, s: Sys, steps: seq<Step>, i: nat)
    requires i < |steps|
  {
    Overlaps(Run(setting, s, steps[..i]), steps[i])
  }

  ghost predicate SomeOverlap(setting: Setting, s: Sys, steps: seq<Step>) {
    exists i :: 0 <= i < |steps| && OverlapAt(setting, s, steps, i)
  }

  /** Over any run of commands, crashes and changes of the lists by others: each family is applied to the end
      at most once and the report loses no entry, if and only if no command wrote a report that another one
      had written since it read it. */
  lemma {:induction false} OnceExactlyWithoutOverlap(setting: Setting, r: Report, store: Store, steps: seq<Step>)
    ensures Once(r, Run(setting, Start(r, store), steps)) <==> !SomeOverlap(setting, Start(r, store), steps)
  {
    var start := Start(r, store);
    if steps == [] {
      assert Families([]) == {};
    } else {
      var n := |steps| - 1;
      var rest := steps[..n];
      var s := Run(setting, start, rest);
      OnceExactlyWithoutOverlap(setting, r, store, rest);
      RunKept(setting, r, store, rest);
      OverlapSoFar(setting, start, steps);
      assert OverlapAt(setting, start, steps, n) == Overlaps(s, steps[n]);
      if steps[n].Write? && MayWrite(s, steps[n].c) { WriteOnce(r, s, steps[n].c); }
    }
  }

  lemma OverlapSoFar(setting: Setting, s: Sys, steps: seq<Step>)
    requires steps != []
    ensures var n := |steps| - 1;
            SomeOverlap(setting, s, steps) <==> SomeOverlap(setting, s, steps[..n]) || OverlapAt(setting, s, steps, n)
  {
    var n := |steps| - 1;
    forall i | 0 <= i < n ensures OverlapAt(setting, s, steps[..n], i) == OverlapAt(setting, s, steps, i) {
      assert steps[..n][..i] == steps[..i];
    }
    hide OverlapAt;
    if SomeOverlap(setting, s, steps) {
      var i :| 0 <= i < |steps| && OverlapAt(setting, s, steps, i);
      assert i < n ==> OverlapAt(setting, s, steps[..n], i);
    }
  }

  /** Each command reads only when no other one is at work. */
  ghost predicate Serial(setting: Setting, s: Sys, steps: seq<Step>) {
    forall i :: 0 <= i < |steps| && steps[i].Read? ==> Run(setting, s, steps[..i]).commands == map[]
  }

  ghost predicate Alone(s: Sys) {
    && (forall c, d :: c in s.commands && d in s.commands ==> c == d)
    && (forall c :: c in s.commands ==> s.commands[c].readAt == |s.completed|)
  }

  lemma AloneStep(setting: Setting, s: Sys, step: Step)
    requires Alone(s) && (step.Read? ==> s.commands == map[])
    ensures Alone(Apply(setting, s, step)) && !Overlaps(s, step)
  {
  }

  lemma {:induction false} SerialAlone(setting: Setting, r: Report, store: Store, steps: seq<Step>)
    requires Serial(setting, Start(r, store), steps)
    ensures Alone(Run(setting, Start(r, store), steps)) && !SomeOverlap(setting, Start(r, store), steps)
  {
    if steps != [] {
      var n, start := |steps| - 1, Start(r, store);
      assert forall i :: 0 <= i < n ==> steps[..n][..i] == steps[..i];
      SerialAlone(setting, r, store, steps[..n]);
      AloneStep(setting, Run(setting, start, steps[..n]), steps[n]);
      OverlapSoFar(setting, start, steps);
    }
  }

  /** Commands that run one after another apply each family at most once, and lose no entry. */
  lemma SerialOnce(setting: Setting, r: Report, store: Store, steps: seq<Step>)
    requires Serial(setting, Start(r, store), steps)
    ensures Once(r, Run(setting, Start(r, store), steps))
  {
    SerialAlone(setting, r, store, steps);
    OnceExactlyWithoutOverlap(setting, r, store, steps);
  }

  // ---- Runs that are built ------------------------------------------------------------------------------------

  lemma {:induction false} RunConcat(setting: Setting, s: Sys, xs: seq<Step>, ys: seq<Step>)
    ensures Run(setting, s, xs + ys) == Run(setting, Run(setting, s, xs), ys)
    decreases |ys|
  {
    if ys == [] {
      assert xs + ys == xs;
    } else {
      RunConcat(setting, s, xs, ys[..|ys| - 1]);
      assert (xs + ys)[..|xs + ys| - 1] == xs + ys[..|ys| - 1];
    }
  }

  lemma RunOne(setting: Setting, s: Sys, step: Step)
    ensures Run(setting, s, [step]) == Apply(setting, s, step)
  {
    assert [step][..0] == [];
  }

  function Removes(c: nat, n: nat): seq<Step> { seq(n, i => Remove(c)) }

  /** A command that has its values makes `n` removals, and nobody else changes the lists. */
  lemma {:induction false} RemovesRun(setting: Setting, s: Sys, c: nat, n: nat)
    requires c in s.commands && s.commands[c].Removing? && s.commands[c].done == 0
    requires n <= |s.commands[c].values.queue| + |s.commands[c].values.dead|
    ensures var cmd := s.commands[c];
            Run(setting, s, Removes(c, n)) ==
            Go(s, c, cmd.(done := n)).(store := s.store.With(cmd.family, Partial(s.store.Of(cmd.family), cmd.values, n)))
  {
    var cmd := s.commands[c];
    if n == 0 {
      assert Partial(s.store.Of(cmd.family), cmd.values, 0) == s.store.Of(cmd.family);
      assert s.commands[c := cmd] == s.commands;
    } else {
      RemovesRun(setting, s, c, n - 1);
      assert Removes(c, n)[..n - 1] == Removes(c, n - 1);
      PartialStep(s.store.Of(cmd.family), cmd.values, n - 1);
    }
  }

  /** The steps of a command that crashes after `n` removals. */
  function CrashSteps(c: nat, f: Family, n: nat): seq<Step> {
    [Read(c, f)] + [Check(c)] + [Take(c)] + Removes(c, n) + [Crash(c)]
  }

  /** From its check to its values. */
  lemma Taken(setting: Setting, s: Sys, c: nat, f: Family)
    requires c in s.commands && s.commands[c].Checked? && s.commands[c].family == f && Complete(s.store, setting.maxItems)
    ensures var cmd := s.commands[c];
            Run(setting, s, [Take(c)]) ==
            Go(s, c, Removing(f, cmd.copy, cmd.readAt, setting.Validated(s.store.Of(f), f), 0))
  {
    RunOne(setting, s, Take(c));
  }

  lemma CrashRun(setting: Setting, r: Report, store: Store, c: nat, f: Family, n: nat)
    requires Applicable(setting, r, store, f)
    requires n <= |setting.Validated(store.Of(f), f).queue| + |setting.Validated(store.Of(f), f).dead|
    ensures var t := Run(setting, Start(r, store), CrashSteps(c, f, n));
            && t.report == r && t.commands == map[] && t.completed == []
            && t.store == store.With(f, Partial(store.Of(f), setting.Validated(store.Of(f), f), n))
  {
    hide Run, Partial;
    var start := Start(r, store);
    var s1 := Apply(setting, start, Read(c, f));
    var s2 := Apply(setting, s1, Check(c));
    RunOne(setting, start, Read(c, f));
    RunOne(setting, s1, Check(c));
    RunConcat(setting, start, [Read(c, f)], [Check(c)]);
    Taken(setting, s2, c, f);
    RunConcat(setting, start, [Read(c, f)] + [Check(c)], [Take(c)]);
    var s3 := Run(setting, s2, [Take(c)]);
    RemovesRun(setting, s3, c, n);
    RunConcat(setting, start, [Read(c, f)] + [Check(c)] + [Take(c)], Removes(c, n));
    var s4 := Run(setting, s3, Removes(c, n));
    RunOne(setting, s4, Crash(c));
    RunConcat(setting, start, [Read(c, f)] + [Check(c)] + [Take(c)] + Removes(c, n), [Crash(c)]);
    assert s4.commands - {c} == map[];
  }

  /** Two states of the lists that match a report agree on every family that it does not record. */
  lemma UnmovedSince(setting: Setting, r: Report, a: Store, b: Store, f: Family)
    requires Tells(setting.digest, a.Values() + b.Values())
    requires f !in r.applies && Matches(setting, r, a) && Matches(setting, r, b)
    ensures a.Of(f) == b.Of(f)
  {
    assert Unmoved(r.baseline.Of(f), Snapshot(setting.digest, a).Of(f), false);
    assert Unmoved(r.baseline.Of(f), Snapshot(setting.digest, b).Of(f), false);
    DigestsTell(setting.digest, a.Of(f).queue, b.Of(f).queue, a.Values() + b.Values());
    DigestsTell(setting.digest, a.Of(f).dead, b.Of(f).dead, a.Values() + b.Values());
  }

  lemma {:induction false} RemoveManyValues(list: seq<string>, values: seq<string>)
    ensures forall v :: v in RemoveMany(list, values) ==> v in list
  {
    if values != [] {
      var rest := values[..|values| - 1];
      RemoveManyValues(list, rest);
      RemoveFirstValues(RemoveMany(list, rest), values[|values| - 1]);
    }
  }

  lemma {:induction false} RemoveFirstValues(list: seq<string>, v: string)
    ensures forall w :: w in RemoveFirst(list, v) ==> w in list
  {
    if list != [] { RemoveFirstValues(list[1..], v); }
  }

  /** Removals bring no new values. */
  lemma PartialValues(store: Store, f: Family, v: Lists, n: nat)
    requires n <= |v.queue| + |v.dead|
    ensures store.With(f, Partial(store.Of(f), v, n)).Values() <= store.Values()
  {
    RemoveManyValues(store.Of(f).queue, if n <= |v.queue| then v.queue[..n] else v.queue);
    RemoveManyValues(store.Of(f).dead, if n <= |v.queue| then [] else v.dead[..n - |v.queue|]);
  }

  /** After a crash that follows any number of the removals, the lists as they are can be applied with the same
      report exactly when nothing had been removed: otherwise every family is refused. */
  lemma CrashBlocks(setting: Setting, r: Report, store: Store, c: nat, f: Family, n: nat, g: Family)
    requires Tells(setting.digest, store.Values()) && Applicable(setting, r, store, f) && g !in r.applies
    requires n <= |setting.Validated(store.Of(f), f).queue| + |setting.Validated(store.Of(f), f).dead|
    ensures var t := Run(setting, Start(r, store), CrashSteps(c, f, n));
            t.report == r && (Applicable(setting, r, t.store, g) <==> n == 0)
  {
    hide Run;
    CrashRun(setting, r, store, c, f, n);
    PartialSize(setting, store.Of(f), f, n);
    var after := Run(setting, Start(r, store), CrashSteps(c, f, n)).store;
    PartialValues(store, f, setting.Validated(store.Of(f), f), n);
    assert store.Values() + after.Values() == store.Values();
    if n == 0 {
      assert after == store;
    } else if Applicable(setting, r, after, g) {
      UnmovedSince(setting, r, store, after, f);
    }
  }

  lemma RestComplete(setting: Setting, store: Store, f: Family)
    requires Complete(store, setting.maxItems)
    ensures Complete(store.With(f, setting.Rest(store.Of(f), f)), setting.maxItems)
  {
    var l := store.Of(f);
    WhereSplits(l.queue, w => setting.valid(f, false, w));
    WhereSplits(l.dead, w => setting.valid(f, true, w));
    forall g: Family ensures |store.With(f, setting.Rest(l, f)).Of(g).queue| <= setting.maxItems
      ensures |store.With(f, setting.Rest(l, f)).Of(g).dead| <= setting.maxItems
    {
      assert |store.Of(g).queue| <= setting.maxItems;
    }
  }

  /** From its check to its report. */
  function RestSteps(c: nat, n: nat): seq<Step> { [Take(c)] + Removes(c, n) + [Write(c)] }

  lemma RestRun(setting: Setting, s: Sys, c: nat, f: Family)
    requires c in s.commands && s.commands[c].Checked? && s.commands[c].family == f && Complete(s.store, setting.maxItems)
    ensures var v, copy := setting.Validated(s.store.Of(f), f), s.commands[c].copy;
            var t := Run(setting, s, RestSteps(c, |v.queue| + |v.dead|));
            && t.report == copy.(applies := copy.applies + {f}) && t.completed == s.completed + [f]
            && t.store == s.store.With(f, setting.Rest(s.store.Of(f), f)) && Complete(t.store, setting.maxItems)
            && t.commands == s.commands - {c}
  {
    hide Run, Partial;
    var v := setting.Validated(s.store.Of(f), f);
    var n := |v.queue| + |v.dead|;
    Taken(setting, s, c, f);
    var s1 := Run(setting, s, [Take(c)]);
    RemovesRun(setting, s1, c, n);
    RunConcat(setting, s, [Take(c)], Removes(c, n));
    var s2 := Run(setting, s1, Removes(c, n));
    RunOne(setting, s2, Write(c));
    RunConcat(setting, s, [Take(c)] + Removes(c, n), [Write(c)]);
    PartialSize(setting, s.store.Of(f), f, n);
    RestComplete(setting, s.store, f);
    assert s2.commands - {c} == s.commands - {c};
  }

  /** Two commands read and check before either of them takes its values; then each runs to its end. */
  function OverlapOpening(f: Family, g: Family): seq<Step> { [Read(0, f)] + [Read(1, g)] + [Check(0)] + [Check(1)] }

  lemma OverlapOpened(setting: Setting, r: Report, store: Store, f: Family, g: Family)
    requires Applicable(setting, r, store, f) && Applicable(setting, r, store, g)
    ensures Run(setting, Start(r, store), OverlapOpening(f, g)) ==
            Sys(r, store, map[0 := Checked(f, r, 0), 1 := Checked(g, r, 0)], [])
  {
    hide Run;
    var s0 := Start(r, store);
    var s1 := Apply(setting, s0, Read(0, f));
    var s2 := Apply(setting, s1, Read(1, g));
    var s3 := Apply(setting, s2, Check(0));
    RunOne(setting, s0, Read(0, f));
    RunOne(setting, s1, Read(1, g));
    RunOne(setting, s2, Check(0));
    RunOne(setting, s3, Check(1));
    RunConcat(setting, s0, [Read(0, f)], [Read(1, g)]);
    RunConcat(setting, s0, [Read(0, f)] + [Read(1, g)], [Check(0)]);
    RunConcat(setting, s0, [Read(0, f)] + [Read(1, g)] + [Check(0)], [Check(1)]);
  }

  /** Nothing prevents the overlap. From every report and lists to which two families can be applied, or one
      family twice, some run completes both commands and leaves only the second entry: two commands for one
      family both complete it, and of two families one loses its entry. */
  lemma OverlapBreaks(setting: Setting, r: Report, store: Store, f: Family, g: Family)
    requires Applicable(setting, r, store, f) && Applicable(setting, r, store, g)
    ensures exists steps ::
              && Run(setting, Start(r, store), steps).completed == [f, g]
              && Run(setting, Start(r, store), steps).report.applies == r.applies + {g}
  {
    hide Run;
    var start := Start(r, store);
    OverlapOpened(setting, r, store, f, g);
    var s1 := Run(setting, start, OverlapOpening(f, g));
    var v := setting.Validated(s1.store.Of(f), f);
    var first := RestSteps(0, |v.queue| + |v.dead|);
    RestRun(setting, s1, 0, f);
    var s2 := Run(setting, s1, first);
    var w := setting.Validated(s2.store.Of(g), g);
    var second := RestSteps(1, |w.queue| + |w.dead|);
    assert s2.commands == map[1 := Checked(g, r, 0)];
    RestRun(setting, s2, 1, g);
    RunConcat(setting, start, OverlapOpening(f, g), first);
    RunConcat(setting, start, OverlapOpening(f, g) + first, second);
    var steps := OverlapOpening(f, g) + first + second;
    assert Run(setting, start, steps).completed == [f, g];
  }
}
