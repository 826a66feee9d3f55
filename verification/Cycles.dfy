/** Conversation-processing cycles: the transactions of `src/core/conversation_cycle_repository.py` over
    the table `conversation_processing_cycles`. A row's id is its index: rows are never deleted. */
module Cycles {
  import opened Common
  import opened Selection
  import M = CycleMessages

  datatype Status =
    | Open | Pending | RecoveringMessages | WaitingMedia | BuildingContext | Summarizing | Classifying
    | RetryableFailure | MediaBlocked | Completed | CompletedWithWarnings | Failed

  predicate Recoverable(s: Status) {
    s in {Pending, RecoveringMessages, WaitingMedia, BuildingContext, Summarizing, Classifying, RetryableFailure}
  }

  datatype Cycle = Cycle(
    conversation: string, number: nat, protocol: Option<string>, started: Option<int>, closed: Option<int>,
    strategy: string, openKey: Option<string>, closeKey: Option<string>, contact: Option<string>,
    status: Status, nextAttempt: Option<int>, enqueued: Option<int>, leaseOwner: Option<string>,
    leaseExpires: Option<int>, errorPhase: Option<string>, errorMessage: Option<string>, updated: int,
    details: map<Detail, Option<string>>)

  /** The columns that only a transition sets. `details` has their values; one that is not there has its default. */
  datatype Detail =
    | AttemptCount | TransientRetryCount | WarningCount | SnapshotJson | RenderedContext | ModelContext
    | ContextReductionApplied | ContextReductionJson | HistoryRecoveryAttempt | HistoryPageCount | ProcessingTimeMs
    | ClassificationId | CompletedAt

  type Rows = seq<Cycle>

  // ---- Arguments -----------------------------------------------------------------------------------

  predicate Unsafe(c: char) { c == '\r' || c == '\n' || c == '\0' }

  /** `_normalize_cycle_contact_external_id`. */
  function NormalizeContact(value: Option<string>): (r: Result<Option<string>, ()>)
    ensures r.Err? <==> value.Some? && (|Strip(value.value)| > 240 || exists c :: c in Strip(value.value) && Unsafe(c))
    ensures r == Ok(None) <==> value.None? || Strip(value.value) == ""
    ensures r.Ok? && r.value.Some? ==>
              && value.Some? && r.value.value == Strip(value.value)
              && 1 <= |r.value.value| <= 240 && forall c :: c in r.value.value ==> !Unsafe(c)
  {
    if value.None? || Strip(value.value) == "" then Ok(None)
    else if |Strip(value.value)| > 240 || (exists c :: c in Strip(value.value) && Unsafe(c)) then Err(())
    else Ok(Some(Strip(value.value)))
  }

  function Coalesce<T>(a: Option<T>, b: Option<T>): Option<T> { if a.Some? then a else b }

  /** What a transition assigns. None leaves a field as it is, and so does a missing detail; `unknown` are the
      names of no such field. */
  datatype Patch = Patch(
    protocol: Option<Option<string>>, started: Option<Option<int>>, strategy: Option<string>,
    nextAttempt: Option<Option<int>>, enqueued: Option<Option<int>>, leaseOwner: Option<Option<string>>,
    leaseExpires: Option<Option<int>>, errorPhase: Option<Option<string>>, errorMessage: Option<Option<string>>,
    details: map<Detail, Option<string>>, unknown: set<string>)

  /** A transition with a field of another name is refused before its transaction. */
  predicate Permitted(p: Patch) { p.unknown == {} }

  function Set<T>(p: Option<T>, current: T): T { if p.Some? then p.value else current }

  // ---- Queries -----------------------------------------------------------------------------------------

  /** The row found by a query for `ok`: the first one. */
  function Find(rows: Rows, ok: Cycle -> bool): (found: Option<nat>)
    ensures found.Some? ==> found.value < |rows| && ok(rows[found.value])
    ensures found.None? ==> forall i :: 0 <= i < |rows| ==> !ok(rows[i])
  {
    if rows == [] then None
    else
      var found := Find(rows[..|rows| - 1], ok);
      if found.Some? then found
      else if ok(rows[|rows| - 1]) then Some(|rows| - 1) else None
  }

  function ByOpenKey(rows: Rows, key: string): Option<nat> { Find(rows, (c: Cycle) => c.openKey == Some(key)) }

  function ByCloseKey(rows: Rows, key: string): Option<nat> { Find(rows, (c: Cycle) => c.closeKey == Some(key)) }

  function OpenOf(rows: Rows, conversation: string): Option<nat> {
    Find(rows, (c: Cycle) => c.conversation == conversation && c.closed.None?)
  }

  function Max(a: nat, b: nat): nat { if a < b then b else a }

  /** COALESCE(MAX(sequence_number), 0) of a conversation. */
  function LastNumber(rows: Rows, conversation: string): (n: nat)
    ensures forall i :: 0 <= i < |rows| && rows[i].conversation == conversation ==> rows[i].number <= n
    ensures n == 0 || exists i :: 0 <= i < |rows| && rows[i].conversation == conversation && rows[i].number == n
  {
    if rows == [] then 0
    else
      var last, before := rows[|rows| - 1], LastNumber(rows[..|rows| - 1], conversation);
      if last.conversation == conversation then Max(before, last.number) else before
  }

  // ---- Opening and closing ---------------------------------------------------------------------------------

  function Opened(rows: Rows, conversation: string, started: int, key: string, strategy: string,
                  contact: Option<string>, now: int): Rows
  {
    var duplicate, existing := ByOpenKey(rows, key), OpenOf(rows, conversation);
    if duplicate.Some? then rows
    else if existing.None? then
      rows + [Cycle(conversation, LastNumber(rows, conversation) + 1, None, Some(started), None, strategy, Some(key),
                    None, contact, Open, None, None, None, None, None, None, now, map[])]
    else if contact.None? then rows
    else
      var c := rows[existing.value];
      rows[existing.value := c.(contact := Coalesce(c.contact, contact), updated := now)]
  }

  function Closed(rows: Rows, conversation: string, protocol: string, closed: int, key: string, strategy: string,
                  contact: Option<string>, now: int, delay: int): Rows
  {
    var duplicate, current := ByCloseKey(rows, key), OpenOf(rows, conversation);
    if duplicate.Some? then rows
    else if current.Some? then
      var c := rows[current.value];
      rows[current.value := c.(protocol := Some(protocol), closed := Some(closed), closeKey := Some(key),
                              status := Pending, contact := Coalesce(c.contact, contact),
                              nextAttempt := Some(now + delay), updated := now, errorPhase := None, errorMessage := None)]
    else
      rows + [Cycle(conversation, LastNumber(rows, conversation) + 1, Some(protocol), None, Some(closed), strategy, None,
                    Some(key), contact, Pending, Some(now + delay), None, None, None, None, None, now, map[])]
  }

  // ---- Transitions, claims, wakes -----------------------------------------------------------------------------

  predicate Expected(c: Cycle, expected: seq<Status>) { expected == [] || c.status in expected }

  /** The SET clause that the source composes from the given fields. */
  function Assigned(c: Cycle, status: Status, p: Patch, now: int): Cycle {
    c.(status := status, protocol := Set(p.protocol, c.protocol), started := Set(p.started, c.started),
       strategy := Set(p.strategy, c.strategy), nextAttempt := Set(p.nextAttempt, c.nextAttempt),
       enqueued := Set(p.enqueued, c.enqueued), leaseOwner := Set(p.leaseOwner, c.leaseOwner),
       leaseExpires := Set(p.leaseExpires, c.leaseExpires), errorPhase := Set(p.errorPhase, c.errorPhase),
       errorMessage := Set(p.errorMessage, c.errorMessage), details := c.details + p.details, updated := now)
  }

  /** The lease is not among the conditions: a transition is not fenced by its owner. */
  function Transitioned(rows: Rows, id: nat, status: Status, expected: seq<Status>, p: Patch, now: int): Rows {
    if Permitted(p) && id < |rows| && Expected(rows[id], expected) then rows[id := Assigned(rows[id], status, p, now)] else rows
  }

  predicate Due(c: Cycle, now: int) {
    && Recoverable(c.status)
    && (c.nextAttempt.None? || c.nextAttempt.value <= now)
    && (c.leaseExpires.None? || c.leaseExpires.value <= now)
  }

  predicate Scheduled(c: Cycle, now: int) { Recoverable(c.status) && c.nextAttempt.Some? && c.nextAttempt.value > now }

  predicate Leased(c: Cycle, now: int) { Recoverable(c.status) && c.leaseExpires.Some? && c.leaseExpires.value > now }

  function Lease(c: Cycle, owner: string, seconds: int, now: int): Cycle {
    c.(leaseOwner := Some(owner), leaseExpires := Some(now + seconds), enqueued := None, updated := now)
  }

  predicate Claimable(rows: Rows, id: nat, now: int) { id < |rows| && Due(rows[id], now) }

  function Claimed(rows: Rows, id: nat, owner: string, seconds: int, now: int): Rows {
    if Claimable(rows, id, now) then rows[id := Lease(rows[id], owner, seconds, now)] else rows
  }

  /** COALESCE(next_attempt_at, updated_at) of the due rows. */
  function DueKeys(rows: Rows, now: int): Keys {
    seq(|rows|, i requires 0 <= i < |rows| =>
      if Due(rows[i], now) then Some(if rows[i].nextAttempt.Some? then rows[i].nextAttempt.value else rows[i].updated)
      else None)
  }

  function NextDue(rows: Rows, now: int): Option<nat> { Best(DueKeys(rows, now)) }

  function ClaimedNext(rows: Rows, owner: string, seconds: int, now: int): Rows {
    var best := NextDue(rows, now);
    if best.Some? then Claimed(rows, best.value, owner, seconds, now) else rows
  }

  /** A row of `message_transcriptions` or of `message_image_extractions`. */
  datatype Job = Job(failed: bool, attempts: nat)

  /** The rows of the cycles' messages, and the two media tables by message id. */
  datatype Media = Media(messages: M.Memberships, audio: map<string, Job>, images: map<string, Job>)

  predicate SpentJob(jobs: map<string, Job>, id: string, maxAttempts: int) {
    id in jobs && jobs[id].failed && jobs[id].attempts >= maxAttempts
  }

  /** The message's own medium has failed for good. */
  predicate Spent(media: Media, k: (nat, string), maxAttempts: int)
    requires k in media.messages
  {
    var kind := media.messages[k].kind;
    || (kind in {"ptt", "audio", "voice"} && SpentJob(media.audio, k.1, maxAttempts))
    || (kind == "image" && SpentJob(media.images, k.1, maxAttempts))
  }

  /** The cycles that have a message like that. */
  function Exhausted(media: Media, maxAttempts: int): set<nat> {
    set k | k in media.messages && Spent(media, k, maxAttempts) :: k.0
  }

  /** The blocked rows without exhausted media; `exhausted` are the rows that have some. */
  function WakeKeys(rows: Rows, exhausted: set<nat>): Keys {
    seq(|rows|, i requires 0 <= i < |rows| =>
      if rows[i].status == MediaBlocked && i !in exhausted then Some(rows[i].updated) else None)
  }

  function Wake(c: Cycle, now: int): Cycle {
    c.(status := WaitingMedia, nextAttempt := Some(now), enqueued := None, errorPhase := None, errorMessage := None, updated := now)
  }

  function ToWake(rows: Rows, exhausted: set<nat>, limit: int): seq<nat> {
    Chosen(WakeKeys(rows, exhausted), if limit < 1 then 1 else limit)
  }

  function Woken(rows: Rows, exhausted: set<nat>, limit: int, now: int): Rows {
    var chosen := ToWake(rows, exhausted, limit);
    seq(|rows|, i requires 0 <= i < |rows| => if i in chosen then Wake(rows[i], now) else rows[i])
  }

  // ---- What each transaction writes --------------------------------------------------------------------------

  ghost predicate HasOpen(rows: Rows, conversation: string) {
    exists i :: 0 <= i < |rows| && rows[i].conversation == conversation && rows[i].closed.None?
  }

  ghost predicate OthersKept(before: Rows, after: Rows, id: nat) {
    |before| <= |after| && forall j :: 0 <= j < |before| && j != id ==> after[j] == before[j]
  }

  /** From when on a row is due: from its schedule and the end of its lease. */
  ghost predicate DueFrom(c: Cycle, time: int) {
    forall t :: Due(c, t) <==> time <= t && (c.leaseExpires.None? || c.leaseExpires.value <= t)
  }

  /** The row `id` after a close with a new key: pending, with what the event says, due from its first attempt on
      and not before. An open cycle keeps the rest of its row, and its contact once it is known; a cycle that is
      born closed has nothing else. */
  ghost predicate ClosedAs(before: Rows, after: Rows, id: nat, conversation: string, protocol: string, closed: int,
                           key: string, strategy: string, contact: Option<string>, now: int, delay: int)
  {
    && id < |after| && OthersKept(before, after, id)
    && var c := after[id];
       && c.conversation == conversation && c.status == Pending && c.closed == Some(closed) && c.protocol == Some(protocol)
       && c.closeKey == Some(key) && c.nextAttempt == Some(now + delay) && c.updated == now
       && c.errorPhase.None? && c.errorMessage.None? && DueFrom(c, now + delay)
       && if id < |before| then
            var b := before[id];
            && |after| == |before| && b.conversation == conversation && b.closed.None?
            && c.number == b.number && c.started == b.started && c.strategy == b.strategy && c.openKey == b.openKey
            && c.enqueued == b.enqueued && c.leaseOwner == b.leaseOwner && c.leaseExpires == b.leaseExpires
            && c.details == b.details && c.contact == (if b.contact.Some? then b.contact else contact)
          else
            && |after| == |before| + 1 && !HasOpen(before, conversation)
            && c.started.None? && c.strategy == strategy && c.openKey.None? && c.contact == contact
            && c.enqueued.None? && c.leaseOwner.None? && c.leaseExpires.None? && c.details == map[]
  }

  lemma ClosedMeaning(rows: Rows, conversation: string, protocol: string, closed: int, key: string, strategy: string,
                      contact: Option<string>, now: int, delay: int)
    requires ByCloseKey(rows, key).None?
    ensures var open := OpenOf(rows, conversation);
            ClosedAs(rows, Closed(rows, conversation, protocol, closed, key, strategy, contact, now, delay),
                     if open.Some? then open.value else |rows|,
                     conversation, protocol, closed, key, strategy, contact, now, delay)
  {
    hide Find, LastNumber;
  }

  /** The row `id` after an opening with a new key. A new cycle is open, with what the event says, and never due; a
      conversation that has an open cycle gets at most a contact that was not known. */
  ghost predicate OpenedAs(before: Rows, after: Rows, id: nat, conversation: string, started: int, key: string,
                           strategy: string, contact: Option<string>, now: int)
  {
    && id < |after| && OthersKept(before, after, id)
    && var c := after[id];
       && c.conversation == conversation && c.closed.None?
       && if id < |before| then
            |after| == |before| && c == before[id].(contact := c.contact, updated := c.updated)
            && c.contact == (if before[id].contact.Some? then before[id].contact else contact)
            && c.updated == (if contact.Some? then now else before[id].updated)
          else
            && |after| == |before| + 1 && !HasOpen(before, conversation)
            && c.status == Open && c.started == Some(started) && c.strategy == strategy && c.openKey == Some(key)
            && c.closeKey.None? && c.protocol.None? && c.contact == contact && c.updated == now
            && c.nextAttempt.None? && c.enqueued.None? && c.leaseOwner.None? && c.leaseExpires.None?
            && c.errorPhase.None? && c.errorMessage.None? && c.details == map[] && forall t :: !Due(c, t)
  }

  lemma OpenedMeaning(rows: Rows, conversation: string, started: int, key: string, strategy: string,
                      contact: Option<string>, now: int)
    requires ByOpenKey(rows, key).None?
    ensures var open := OpenOf(rows, conversation);
            OpenedAs(rows, Opened(rows, conversation, started, key, strategy, contact, now),
                     if open.Some? then open.value else |rows|, conversation, started, key, strategy, contact, now)
  {
    hide Find, LastNumber;
  }

  predicate Sets<T(==)>(given: Option<T>, before: T, after: T) {
    (given.Some? ==> after == given.value) && (given.None? ==> after == before)
  }

  /** A row after a transition: the status, each given field, and nothing else. */
  ghost predicate AssignedAs(before: Cycle, after: Cycle, status: Status, p: Patch, now: int) {
    && after.status == status && after.updated == now
    && Sets(p.protocol, before.protocol, after.protocol) && Sets(p.started, before.started, after.started)
    && Sets(p.strategy, before.strategy, after.strategy) && Sets(p.nextAttempt, before.nextAttempt, after.nextAttempt)
    && Sets(p.enqueued, before.enqueued, after.enqueued) && Sets(p.leaseOwner, before.leaseOwner, after.leaseOwner)
    && Sets(p.leaseExpires, before.leaseExpires, after.leaseExpires)
    && Sets(p.errorPhase, before.errorPhase, after.errorPhase) && Sets(p.errorMessage, before.errorMessage, after.errorMessage)
    && after.details.Keys == before.details.Keys + p.details.Keys
    && (forall d :: d in p.details ==> after.details[d] == p.details[d])
    && (forall d :: d in before.details && d !in p.details ==> after.details[d] == before.details[d])
    && after.conversation == before.conversation && after.number == before.number && after.closed == before.closed
    && after.openKey == before.openKey && after.closeKey == before.closeKey && after.contact == before.contact
  }

  lemma AssignedMeaning(c: Cycle, status: Status, p: Patch, now: int)
    ensures AssignedAs(c, Assigned(c, status, p, now), status, p, now)
  {
  }

  /** A transition acts exactly without a field of another name, on a row that is there, in an expected status if any
      is given. It changes no other row. */
  lemma TransitionedMeaning(rows: Rows, id: nat, status: Status, expected: seq<Status>, p: Patch, now: int)
    ensures var after := Transitioned(rows, id, status, expected, p, now);
            && |after| == |rows| && (forall j :: 0 <= j < |rows| && j != id ==> after[j] == rows[j])
            && (id < |rows| && p.unknown == {} && (|expected| == 0 || exists i :: 0 <= i < |expected| && expected[i] == rows[id].status) ==>
                  AssignedAs(rows[id], after[id], status, p, now))
            && (p.unknown != {} || (id < |rows| && |expected| > 0 && forall i :: 0 <= i < |expected| ==> expected[i] != rows[id].status) ==>
                  after == rows)
  {
    if id < |rows| { AssignedMeaning(rows[id], status, p, now); }
  }

  /** A row after a claim: the lease is new, the row is not enqueued, and nothing else changes. With a positive lease
      it is due again when the lease ends, and not before. */
  lemma LeaseMeaning(c: Cycle, owner: string, seconds: int, now: int)
    requires Due(c, now)
    ensures var next := Lease(c, owner, seconds, now);
            && next.leaseOwner == Some(owner) && next.leaseExpires == Some(now + seconds) && next.enqueued.None?
            && next.updated == now
            && next == c.(leaseOwner := next.leaseOwner, leaseExpires := next.leaseExpires, enqueued := None, updated := now)
            && (seconds > 0 ==> forall t :: t >= now ==> (Due(next, t) <==> now + seconds <= t))
  {
  }

  /** A woken row waits for its media, without its errors, and is due as soon as its lease allows. */
  lemma WakeMeaning(c: Cycle, now: int)
    ensures var next := Wake(c, now);
            && next.status == WaitingMedia && next.nextAttempt == Some(now) && next.enqueued.None? && next.updated == now
            && next.errorPhase.None? && next.errorMessage.None? && DueFrom(next, now)
            && next == c.(status := WaitingMedia, nextAttempt := next.nextAttempt, enqueued := None, errorPhase := None,
                          errorMessage := None, updated := now)
  {
  }

  /** Which cycles are due: those that are neither open, nor blocked by media, nor at an end, once their schedule and
      their lease allow it. */
  lemma DueMeaning(c: Cycle, t: int)
    ensures Due(c, t) <==>
            && c.status != Open && c.status != MediaBlocked
            && c.status != Completed && c.status != CompletedWithWarnings && c.status != Failed
            && !(c.nextAttempt.Some? && t < c.nextAttempt.value) && !(c.leaseExpires.Some? && t < c.leaseExpires.value)
  {
  }

  // ---- The repository -------------------------------------------------------------------------------------------

  class CycleRepository {
    var rows: Rows

    constructor ()
      ensures rows == []
    {
      rows := [];
    }

    /** `_create_open_cycle_sync`. */
    method CreateOpenCycle(conversation: string, started: int, key: string, strategy: string, contact: Option<string>, now: int)
      returns (result: Result<(nat, bool), ()>)
      modifies this
      ensures result.Err? <==> NormalizeContact(contact).Err?
      ensures result.Err? ==> rows == old(rows)
      ensures result.Ok? ==>
                && rows == Opened(old(rows), conversation, started, key, strategy, NormalizeContact(contact).value, now)
                && result.value.0 < |rows| && result.value.1 == (|rows| > |old(rows)|)
                && (rows[result.value.0].openKey == Some(key) ||
                    (rows[result.value.0].conversation == conversation && rows[result.value.0].closed.None?))
                && (ByOpenKey(old(rows), key).None? ==>
                      OpenedAs(old(rows), rows, result.value.0, conversation, started, key, strategy,
                               NormalizeContact(contact).value, now))
    {
      hide OpenedAs;
      var normalized := NormalizeContact(contact);
      if normalized.Err? {
        return Err(());
      }
      var duplicate := ByOpenKey(rows, key);
      var existing := OpenOf(rows, conversation);
      if duplicate.None? { OpenedMeaning(rows, conversation, started, key, strategy, normalized.value, now); }
      var id: nat;
      var created := duplicate.None? && existing.None?;
      if duplicate.Some? {
        id := duplicate.value;
      } else if existing.None? {
        id := |rows|;
        var number := LastNumber(rows, conversation) + 1;
        rows := rows + [Cycle(conversation, number, None, Some(started), None, strategy, Some(key), None,
                              normalized.value, Open, None, None, None, None, None, None, now, map[])];
      } else {
        id := existing.value;
        if normalized.value.Some? {
          var c := rows[id];
          rows := rows[id := c.(contact := Coalesce(c.contact, normalized.value), updated := now)];
        }
      }
      result := Ok((id, created));
    }

    /** `_close_cycle_sync`. */
    method CloseCycle(conversation: string, protocol: string, closed: int, key: string, strategy: string,
                      contact: Option<string>, now: int, delay: int)
      returns (result: Result<(nat, bool), ()>)
      modifies this
      ensures result.Err? <==> NormalizeContact(contact).Err?
      ensures result.Err? ==> rows == old(rows)
      ensures result.Ok? ==>
                && rows == Closed(old(rows), conversation, protocol, closed, key, strategy,
                                  NormalizeContact(contact).value, now, delay)
                && result.value.0 < |rows| && rows[result.value.0].closeKey == Some(key)
                && result.value.1 == ByCloseKey(old(rows), key).None?
                && (result.value.1 ==>
                      ClosedAs(old(rows), rows, result.value.0, conversation, protocol, closed, key, strategy,
                               NormalizeContact(contact).value, now, delay))
    {
      hide ClosedAs;
      var normalized := NormalizeContact(contact);
      if normalized.Err? {
        return Err(());
      }
      var duplicate := ByCloseKey(rows, key);
      if duplicate.None? { ClosedMeaning(rows, conversation, protocol, closed, key, strategy, normalized.value, now, delay); }
      var id: nat;
      if duplicate.Some? {
        id := duplicate.value;
      } else {
        var current := OpenOf(rows, conversation);
        if current.Some? {
          id := current.value;
          var c := rows[id];
          rows := rows[id := c.(protocol := Some(protocol), closed := Some(closed), closeKey := Some(key),
                                status := Pending, contact := Coalesce(c.contact, normalized.value),
                                nextAttempt := Some(now + delay), updated := now, errorPhase := None, errorMessage := None)];
        } else {
          id := |rows|;
          var number := LastNumber(rows, conversation) + 1;
          rows := rows + [Cycle(conversation, number, Some(protocol), None, Some(closed), strategy, None, Some(key),
                                normalized.value, Pending, Some(now + delay), None, None, None, None, None, now, map[])];
        }
      }
      result := Ok((id, duplicate.None?));
    }

    /** `_transition_cycle_sync`. */
    method TransitionCycle(id: nat, status: Status, expected: seq<Status>, p: Patch, now: int)
      returns (result: Result<Option<Cycle>, ()>)
      modifies this
      ensures rows == Transitioned(old(rows), id, status, expected, p, now)
      ensures result.Err? <==> p.unknown != {}
      ensures result.Ok? ==> (result.value.Some? <==> id < |old(rows)| && Expected(old(rows)[id], expected))
      ensures result.Ok? ==>
                (result.value.Some? <==> id < |old(rows)| && (|expected| == 0 || old(rows)[id].status in expected))
      ensures result.Ok? && result.value.Some? ==>
                result.value.value == rows[id] && AssignedAs(old(rows)[id], rows[id], status, p, now)
    {
      if !Permitted(p) {
        return Err(());
      }
      if id >= |rows| || !Expected(rows[id], expected) {
        return Ok(None);
      }
      AssignedMeaning(rows[id], status, p, now);
      rows := rows[id := Assigned(rows[id], status, p, now)];
      result := Ok(Some(rows[id]));
    }

    /** `_claim_cycle_sync`. */
    method ClaimCycle(id: nat, owner: string, seconds: int, now: int) returns (row: Option<Cycle>)
      modifies this
      ensures rows == Claimed(old(rows), id, owner, seconds, now)
      ensures row.Some? <==> Claimable(old(rows), id, now)
      ensures row.Some? ==> row.value == rows[id]
    {
      if !Claimable(rows, id, now) {
        return None;
      }
      rows := rows[id := Lease(rows[id], owner, seconds, now)];
      row := Some(rows[id]);
    }

    /** `_claim_next_cycle_sync`. */
    method ClaimNextCycle(owner: string, seconds: int, now: int) returns (taken: Option<nat>)
      modifies this
      ensures taken == NextDue(old(rows), now)
      ensures rows == ClaimedNext(old(rows), owner, seconds, now)
    {
      taken := NextDue(rows, now);
      if taken.Some? {
        rows := rows[taken.value := Lease(rows[taken.value], owner, seconds, now)];
      }
    }

    /** `_wake_unblocked_media_cycles_sync`: the update goes over the chosen rows. */
    method WakeUnblockedMediaCycles(media: Media, maxAttempts: int, limit: int, now: int) returns (chosen: seq<nat>)
      modifies this
      ensures chosen == ToWake(old(rows), Exhausted(media, maxAttempts), limit)
      ensures rows == Woken(old(rows), Exhausted(media, maxAttempts), limit, now)
    {
      var exhausted := Exhausted(media, maxAttempts);
      chosen := ToWake(rows, exhausted, limit);
      ghost var done: set<nat> := {};
      for n := 0 to |chosen|
        invariant done == Members(chosen[..n]) && WokenSoFar(old(rows), rows, done, now)
      {
        NextToWake(old(rows), exhausted, limit, n);
        WakeOne(old(rows), rows, done, chosen[n], now);
        rows := rows[chosen[n] := Wake(rows[chosen[n]], now)];
        done := done + {chosen[n]};
      }
      assert chosen[..|chosen|] == chosen;
    }
  }

  function Members(ids: seq<nat>): set<nat> { set i | i in ids }

  ghost predicate WokenSoFar(before: Rows, now: Rows, done: set<nat>, time: int) {
    && |now| == |before|
    && forall i :: 0 <= i < |now| ==> now[i] == if i in done then Wake(before[i], time) else before[i]
  }

  lemma NextToWake(rows: Rows, exhausted: set<nat>, limit: int, n: nat)
    requires n < |ToWake(rows, exhausted, limit)|
    ensures var chosen := ToWake(rows, exhausted, limit);
            && chosen[n] < |rows| && chosen[n] !in Members(chosen[..n])
            && Members(chosen[..n + 1]) == Members(chosen[..n]) + {chosen[n]}
  {
    var chosen := ToWake(rows, exhausted, limit);
    ChosenMeaning(WakeKeys(rows, exhausted), if limit < 1 then 1 else limit);
    assert chosen[n] in Candidates(WakeKeys(rows, exhausted));
    assert chosen[..n + 1] == chosen[..n] + [chosen[n]];
  }

  lemma WakeOne(before: Rows, now: Rows, done: set<nat>, id: nat, time: int)
    requires WokenSoFar(before, now, done, time) && id < |before| && id !in done
    ensures WokenSoFar(before, now[id := Wake(now[id], time)], done + {id}, time)
  {
  }

  /** A blocked cycle, none of whose messages has failed for good. */
  ghost predicate Unblocked(rows: Rows, media: Media, maxAttempts: int, id: nat) {
    && id < |rows| && rows[id].status == MediaBlocked
    && forall k :: k in media.messages && k.0 == id ==>
         var kind := media.messages[k].kind;
         && (kind == "ptt" || kind == "audio" || kind == "voice" ==> !GaveUp(media.audio, k.1, maxAttempts))
         && (kind == "image" ==> !GaveUp(media.images, k.1, maxAttempts))
  }

  /** The message has a job that has failed, with no attempt left. */
  ghost predicate GaveUp(jobs: map<string, Job>, id: string, maxAttempts: int) {
    id in jobs && jobs[id].failed && !(jobs[id].attempts < maxAttempts)
  }

  lemma ExhaustedMeaning(media: Media, maxAttempts: int, id: nat)
    ensures id !in Exhausted(media, maxAttempts) <==> forall k :: k in media.messages && k.0 == id ==> !Spent(media, k, maxAttempts)
  {
  }

  lemma CandidateMeaning(rows: Rows, media: Media, maxAttempts: int, id: nat)
    ensures id in Candidates(WakeKeys(rows, Exhausted(media, maxAttempts))) <==> Unblocked(rows, media, maxAttempts, id)
  {
    hide Exhausted;
    ExhaustedMeaning(media, maxAttempts, id);
  }

  /** Only unblocked cycles are woken, each once and the longest unchanged first, and none is left when fewer
      than the limit are woken. */
  lemma WokenMeaning(rows: Rows, media: Media, maxAttempts: int, limit: int)
    ensures var chosen := ToWake(rows, Exhausted(media, maxAttempts), limit);
            && (forall id :: id in chosen ==> Unblocked(rows, media, maxAttempts, id))
            && (forall i, j :: 0 <= i < j < |chosen| ==>
                  && chosen[i] != chosen[j] && chosen[i] < |rows| && chosen[j] < |rows|
                  && rows[chosen[i]].updated <= rows[chosen[j]].updated)
            && |chosen| <= Max(1, if limit < 0 then 0 else limit)
            && (|chosen| < limit ==> forall id: nat :: Unblocked(rows, media, maxAttempts, id) ==> id in chosen)
  {
    hide Unblocked, Exhausted;
    var keys := WakeKeys(rows, Exhausted(media, maxAttempts));
    ChosenMeaning(keys, if limit < 1 then 1 else limit);
    hide Chosen;
    forall id: nat ensures id in Candidates(keys) <==> Unblocked(rows, media, maxAttempts, id) {
      CandidateMeaning(rows, media, maxAttempts, id);
    }
    var chosen := ToWake(rows, Exhausted(media, maxAttempts), limit);
    assert forall i :: 0 <= i < |chosen| ==> chosen[i] in Candidates(keys);
  }
}
