/** The refresh of the directory: `sync_acessorias_directory_sync` of `src/core/acessorias_directory.py` with its
    row of `acessorias_directory_sync_executions`. */
module DirectoryRefresh {
  import opened Common
  import opened Directory
  import opened DirectoryStore
  import opened DirectoryRepository
  import opened SnapshotHash

  datatype Status = Started | Succeeded | Deduplicated | Failed

  datatype Execution = Execution(status: Status, hash: Option<string>, category: Option<string>, inactivated: nat)

  type Executions = map<nat, Execution>

  const STARTED := Execution(Started, None, None, 0)

  function Take(s: string, n: nat): string { if |s| <= n then s else s[..n] }

  function FailedRow(category: string): Execution { Execution(Failed, None, Some(Take(category, 80)), 0) }

  predicate HasSucceeded(rows: Executions, hash: string) {
    exists k :: k in rows && rows[k].status == Succeeded && rows[k].hash == Some(hash)
  }

  /** The last statements of `_publish_snapshot`. */
  function PublishedRow(rows: Executions, hash: string, inactivated: nat): Execution {
    if HasSucceeded(rows, hash) then Execution(Deduplicated, Some(hash), Some("duplicate_snapshot"), inactivated)
    else Execution(Succeeded, Some(hash), None, inactivated)
  }

  class Refresher {
    const directory: Repository
    var executions: Executions

    constructor (d: Repository)
      ensures directory == d && executions == map[]
    {
      directory := d;
      executions := map[];
    }

    /** `sync_acessorias_directory_sync`. `fetched` is what the adapter returns or raises, and `locked` whether
        the advisory lock was there. The snapshot is published even when its row says that it was deduplicated. */
    method Refresh(id: nat, fetched: Result<Snapshot, string>, locked: bool, digest: Snapshot -> string, ghost f: Facts)
      returns (row: Execution)
      requires id !in executions && StoredOk(directory.State()) && Reads(f, directory.State())
      modifies this, directory
      ensures executions == old(executions)[id := row] && StoredOk(directory.State())
      ensures var fine := fetched.Ok? && Validate(fetched.value).None? && locked;
              && (fine ==>
                    && row == PublishedRow(old(executions), HashOf(digest, fetched.value), Inactivated(old(directory.State())))
                    && StoredKeeps(old(directory.State()), directory.State())
                    && Reads(Published(f, FactsOf(fetched.value)), directory.State())
                    && PublishedAsSent(f, directory.State(), fetched.value)
                    && row.hash == Some(HashOf(digest, fetched.value)) && row.inactivated == Inactivated(old(directory.State()))
                    && row.status in {Succeeded, Deduplicated}
                    && row.category == (if row.status == Deduplicated then Some("duplicate_snapshot") else None)
                    && (row.status == Deduplicated <==>
                          exists k :: k in old(executions) && old(executions)[k].status == Succeeded
                                      && old(executions)[k].hash == Some(HashOf(digest, fetched.value))))
              && (!fine ==>
                    && directory.State() == old(directory.State())
                    && row == FailedRow(if fetched.Err? then fetched.error
                                        else if Validate(fetched.value).Some? then Validate(fetched.value).value
                                        else "refresh_in_progress")
                    && row.status == Failed && row.hash.None? && row.inactivated == 0)
    {
      hide Validate, FactsOf, Reads, StoredOk, StoredKeeps, Published, Overlaid, AllCleared, Inactivated, HashOf, PublishedAsSent;
      ghost var before := executions;
      executions := executions[id := STARTED];
      if fetched.Err? {
        row := FailedRow(fetched.error);
      } else if Validate(fetched.value).Some? {
        row := FailedRow(Validate(fetched.value).value);
      } else if !locked {
        row := FailedRow("refresh_in_progress");
      } else {
        var inactivated := directory.PublishSnapshot(fetched.value, f);
        PublicationOrdersAgree(f, FactsOf(fetched.value));
        var hash := HashOf(digest, fetched.value);
        OwnRowUnpublished(before, id, hash);
        row := PublishedRow(executions, hash, inactivated.value);
      }
      executions := executions[id := row];
      assert executions == before[id := row];
    }
  }

  lemma OwnRowUnpublished(rows: Executions, id: nat, hash: string)
    requires id !in rows
    ensures HasSucceeded(rows[id := STARTED], hash) == HasSucceeded(rows, hash)
  {
    if k :| k in rows && rows[k].status == Succeeded && rows[k].hash == Some(hash) {
      assert rows[id := STARTED][k] == rows[k];
    }
  }

  // ---- Runs of refreshes -------------------------------------------------------------------------------------

  /** Refreshes overlap and crash: each one starts its row, and ends it once, if at all. */
  datatype Step =
    | Begin(id: nat)
    | Publish(id: nat, snapshot: Snapshot, inactivated: nat)
    | Fail(id: nat, category: string)

  datatype Publication = Publication(id: nat, snapshot: Snapshot)

  /** `log` are the publications so far. */
  datatype Sys = Sys(rows: Executions, log: seq<Publication>)

  predicate Running(rows: Executions, id: nat) { id in rows && rows[id].status == Started }

  function Apply(digest: Snapshot -> string, s: Sys, step: Step): Sys {
    match step
    case Begin(id) => if id in s.rows then s else s.(rows := s.rows[id := STARTED])
    case Publish(id, snapshot, inactivated) =>
      if Running(s.rows, id) && Validate(snapshot).None? then
        Sys(s.rows[id := PublishedRow(s.rows, HashOf(digest, snapshot), inactivated)],
            s.log + [Publication(id, snapshot)])
      else s
    case Fail(id, category) => if Running(s.rows, id) then s.(rows := s.rows[id := FailedRow(category)]) else s
  }

  function Run(digest: Snapshot -> string, steps: seq<Step>): Sys {
    if steps == [] then Sys(map[], []) else Apply(digest, Run(digest, steps[..|steps| - 1]), steps[|steps| - 1])
  }

  ghost predicate HashedBefore(digest: Snapshot -> string, log: seq<Publication>, hash: string) {
    exists j :: 0 <= j < |log| && HashOf(digest, log[j].snapshot) == hash
  }

  /** What the row of a publication says, by the publications before it. */
  ghost predicate SaysExactly(digest: Snapshot -> string, s: Sys, i: nat)
    requires i < |s.log|
  {
    var p := s.log[i];
    var hash := HashOf(digest, p.snapshot);
    && p.id in s.rows && s.rows[p.id].hash == Some(hash) && Validate(p.snapshot).None?
    && s.rows[p.id].status == if HashedBefore(digest, s.log[..i], hash) then Deduplicated else Succeeded
  }

  ghost predicate Inv(digest: Snapshot -> string, s: Sys) {
    && (forall i :: 0 <= i < |s.log| ==> SaysExactly(digest, s, i))
    && (forall hash :: HasSucceeded(s.rows, hash) <==> HashedBefore(digest, s.log, hash))
  }

  lemma EndingKept(digest: Snapshot -> string, s: Sys, id: nat, row: Execution)
    requires Inv(digest, s) && (id !in s.rows || Running(s.rows, id)) && row.status in {Started, Failed}
    ensures Inv(digest, s.(rows := s.rows[id := row]))
  {
    var t := s.(rows := s.rows[id := row]);
    forall i | 0 <= i < |t.log| ensures SaysExactly(digest, t, i) { assert SaysExactly(digest, s, i); }
    forall hash ensures HasSucceeded(t.rows, hash) <==> HashedBefore(digest, t.log, hash) {
      SucceededElsewhere(s.rows, id, row, hash);
    }
  }

  /** A row that is written over has not succeeded. */
  lemma SucceededElsewhere(rows: Executions, id: nat, row: Execution, hash: string)
    requires id !in rows || Running(rows, id)
    ensures HasSucceeded(rows[id := row], hash) <==>
            HasSucceeded(rows, hash) || (row.status == Succeeded && row.hash == Some(hash))
  {
    if k :| k in rows && rows[k].status == Succeeded && rows[k].hash == Some(hash) {
      assert rows[id := row][k] == rows[k];
    }
    assert rows[id := row][id] == row;
  }

  lemma HashedAppend(digest: Snapshot -> string, log: seq<Publication>, p: Publication, hash: string)
    ensures HashedBefore(digest, log + [p], hash) <==> HashedBefore(digest, log, hash) || HashOf(digest, p.snapshot) == hash
  {
    if HashedBefore(digest, log, hash) {
      var j :| 0 <= j < |log| && HashOf(digest, log[j].snapshot) == hash;
      assert (log + [p])[j] == log[j];
    }
    assert (log + [p])[|log|] == p;
  }

  lemma PublishKept(digest: Snapshot -> string, s: Sys, id: nat, snapshot: Snapshot, inactivated: nat)
    requires Inv(digest, s) && Running(s.rows, id) && Validate(snapshot).None?
    ensures Inv(digest, Apply(digest, s, Publish(id, snapshot, inactivated)))
  {
    hide HashOf, Validate;
    var t, p := Apply(digest, s, Publish(id, snapshot, inactivated)), Publication(id, snapshot);
    var own := HashOf(digest, snapshot);
    forall i | 0 <= i < |t.log| ensures SaysExactly(digest, t, i) {
      if i < |s.log| {
        assert SaysExactly(digest, s, i) && t.log[..i] == s.log[..i];
      } else {
        assert t.log[..i] == s.log;
      }
    }
    forall hash ensures HasSucceeded(t.rows, hash) <==> HashedBefore(digest, t.log, hash) {
      SucceededElsewhere(s.rows, id, t.rows[id], hash);
      HashedAppend(digest, s.log, p, hash);
    }
  }

  lemma {:induction false} RunKept(digest: Snapshot -> string, steps: seq<Step>)
    ensures Inv(digest, Run(digest, steps))
  {
    if steps != [] {
      var s, step := Run(digest, steps[..|steps| - 1]), steps[|steps| - 1];
      RunKept(digest, steps[..|steps| - 1]);
      match step
      case Begin(id) => if id !in s.rows { EndingKept(digest, s, id, STARTED); }
      case Publish(id, snapshot, inactivated) =>
        if Running(s.rows, id) && Validate(snapshot).None? { PublishKept(digest, s, id, snapshot, inactivated); }
      case Fail(id, category) => if Running(s.rows, id) { EndingKept(digest, s, id, FailedRow(category)); }
    }
  }

  ghost predicate SentBefore(log: seq<Publication>, s: Snapshot) {
    exists j :: 0 <= j < |log| && SameSnapshot(Raw(log[j].snapshot), Raw(s))
  }

  /** Over any run of refreshes, with overlaps and crashes: a publication's row says "deduplicated" for good if and
      only if the provider had sent the same, in any order, at any earlier publication; the latest one or not. */
  lemma DeduplicatedExactly(digest: Snapshot -> string, steps: seq<Step>, i: nat)
    requires var log := Run(digest, steps).log;
             i < |log| && forall j :: 0 <= j < i ==> Apart(digest, log[j].snapshot, log[i].snapshot)
    ensures var t := Run(digest, steps);
            && t.log[i].id in t.rows && t.rows[t.log[i].id].status in {Succeeded, Deduplicated}
            && (t.rows[t.log[i].id].status == Deduplicated <==> SentBefore(t.log[..i], t.log[i].snapshot))
  {
    hide HashOf, Validate, Apart, SameSnapshot, Raw;
    RunKept(digest, steps);
    var t := Run(digest, steps);
    assert SaysExactly(digest, t, i);
    forall j | 0 <= j < i
      ensures HashOf(digest, t.log[j].snapshot) == HashOf(digest, t.log[i].snapshot) <==>
              SameSnapshot(Raw(t.log[j].snapshot), Raw(t.log[i].snapshot))
    {
      assert SaysExactly(digest, t, j);
      HashTellsExactly(digest, t.log[j].snapshot, t.log[i].snapshot);
    }
  }
}
