/** Leases of contact hydrations: `src/core/digisac_contact_repository.py` over the table
    `digisac_contact_hydrations`, whose rows are addressed by contact id. */
module HydrationLeases {
  import opened Common
  import opened Selection
  import Contacts
  import opened ContactReconciliation

  datatype Status = Pending | Running | Succeeded | Failed

  datatype Hydration = Hydration(
    status: Status, attempts: nat, requested: int, lastAttempt: Option<int>, nextAttempt: Option<int>,
    leaseUntil: Option<int>, completed: Option<int>, failure: Option<string>)

  datatype Decision = InvalidContact | Requested | PendingDuplicate | RunningDuplicate | BackoffPreserved | FailedDue | Current

  type Hydrations = map<nat, Hydration>

  // ---- Message references ----------------------------------------------------------------------------

  const CREATED_AT := 10

  /** `_contact_has_metadata`. */
  predicate HasMetadata(row: Contacts.ContactRow) {
    row.fields[Contacts.UPDATED_AT].Some? || row.fields[CREATED_AT].Some?
  }

  function NoFields(): Contacts.Fields { seq(Contacts.FIELD_COUNT, i requires 0 <= i < Contacts.FIELD_COUNT => None) }

  /** The placeholder upsert of a message reference. */
  function Referenced(t: ContactTable, id: string, at: int): ContactTable {
    if id in t.rows then
      var row := t.rows[id];
      ContactTable(t.rows[id := row.(lastSeen := if row.lastSeen < at then at else row.lastSeen)], t.next + 1)
    else ContactTable(t.rows[id := Contacts.ContactRow(t.next, NoFields(), at, "message_reference")], t.next + 1)
  }

  function DecisionFor(state: Option<Hydration>, metadata: bool, now: int): Decision {
    if state.Some? then
      match state.value.status
      case Pending => PendingDuplicate
      case Running => RunningDuplicate
      case Succeeded => Current
      case Failed => if state.value.nextAttempt.Some? && state.value.nextAttempt.value > now then BackoffPreserved else FailedDue
    else if metadata then Current else Requested
  }

  function Asked(rows: Hydrations, contact: nat, metadata: bool, at: int): Hydrations {
    if contact in rows || metadata then rows
    else rows[contact := Hydration(Pending, 0, at, None, None, None, None, None)]
  }

  // ---- Claims and their ends -------------------------------------------------------------------------------

  predicate Claimable(h: Hydration, now: int) {
    || (h.status in {Pending, Failed} && (h.nextAttempt.None? || h.nextAttempt.value <= now))
    || (h.status == Running && h.leaseUntil.Some? && h.leaseUntil.value <= now)
  }

  /** The sort keys of the claimable rows, for contact ids below `bound`. */
  function ClaimKeys(rows: Hydrations, bound: nat, now: int): Keys {
    seq(bound, i requires 0 <= i < bound => if i in rows && Claimable(rows[i], now) then Some(rows[i].requested) else None)
  }

  function ClaimedRow(h: Hydration, seconds: int, now: int): Hydration {
    h.(status := Running, attempts := h.attempts + 1, lastAttempt := Some(now), nextAttempt := None,
       leaseUntil := Some(now + seconds))
  }

  function Taken(rows: Hydrations, bound: nat, now: int): (id: Option<nat>)
    ensures id.Some? ==> id.value in rows && Claimable(rows[id.value], now)
  {
    assert forall i :: i in Candidates(ClaimKeys(rows, bound, now)) ==> i in rows && Claimable(rows[i], now);
    Best(ClaimKeys(rows, bound, now))
  }

  /** ORDER BY requested_at, contact_id LIMIT 1: when all contact ids are below the bound, no claimable row
      is missed, and none comes before the one that is taken. */
  lemma TakenMeaning(rows: Hydrations, bound: nat, now: int)
    requires forall c :: c in rows ==> c < bound
    ensures var id := Taken(rows, bound, now);
            && (id.None? <==> forall c :: c in rows ==> !Claimable(rows[c], now))
            && (id.Some? ==> forall c :: c in rows && c != id.value && Claimable(rows[c], now) ==>
                  rows[id.value].requested < rows[c].requested
                  || (rows[id.value].requested == rows[c].requested && id.value < c))
  {
    var keys := ClaimKeys(rows, bound, now);
    forall c | c in rows && Claimable(rows[c], now) ensures c in Candidates(keys) {
      assert keys[c].Some?;
    }
    forall c | c in Candidates(keys) ensures c in rows && Claimable(rows[c], now) {}
  }

  function Claimed(rows: Hydrations, bound: nat, seconds: int, now: int): Hydrations {
    var id := Taken(rows, bound, now);
    if id.Some? then rows[id.value := ClaimedRow(rows[id.value], seconds, now)] else rows
  }

  /** The end of a claim is accepted only with its own lease time, while the claim runs. */
  predicate Accepts(rows: Hydrations, contact: nat, token: int) {
    contact in rows && rows[contact].status == Running && rows[contact].leaseUntil == Some(token)
  }

  function DoneRow(h: Hydration, completed: int): Hydration {
    h.(status := Succeeded, nextAttempt := None, leaseUntil := None, completed := Some(completed), failure := None)
  }

  function Done(rows: Hydrations, contact: nat, token: int, now: int): Hydrations {
    if Accepts(rows, contact, token) then rows[contact := DoneRow(rows[contact], now)] else rows
  }

  function FailedRow(h: Hydration, category: string, retryable: bool, limit: int, delay: int, now: int): Hydration {
    h.(status := Failed, nextAttempt := if retryable && h.attempts < limit then Some(now + delay) else None,
       leaseUntil := None, completed := None, failure := Some(category))
  }

  function Broken(rows: Hydrations, contact: nat, token: int, category: string, retryable: bool, limit: int,
                  delay: int, now: int): Hydrations
  {
    if Accepts(rows, contact, token) then
      rows[contact := FailedRow(rows[contact], category, retryable, limit, delay, now)]
    else rows
  }

  /** A ticket webhook that carries the contact settles its hydration, whatever its state. */
  function Settled(rows: Hydrations, contact: nat, now: int): Hydrations {
    if contact in rows then
      rows[contact := DoneRow(rows[contact], if rows[contact].completed.Some? then rows[contact].completed.value else now)]
    else rows
  }

  // ---- What each transaction writes ------------------------------------------------------------------------

  /** A message reference adds a contact that nothing else is known of, or moves the sight of a known one forward. */
  lemma ReferenceMeaning(t: ContactTable, id: string, at: int)
    ensures var after := Referenced(t, id, at).rows;
            && after.Keys == t.rows.Keys + {id} && (forall e :: e in t.rows && e != id ==> after[e] == t.rows[e])
            && Referenced(t, id, at).next == t.next + 1
            && var row := after[id];
               if id in t.rows then
                 && row == t.rows[id].(lastSeen := row.lastSeen)
                 && row.lastSeen >= t.rows[id].lastSeen && row.lastSeen >= at && row.lastSeen in {t.rows[id].lastSeen, at}
               else
                 && row.id == t.next && row.lastSeen == at && row.lastSource == "message_reference"
                 && forall i :: 0 <= i < Contacts.FIELD_COUNT ==> row.fields[i].None?
  {
  }

  /** Something is known of a contact when the provider gave one of its two times. */
  lemma MetadataMeaning(row: Contacts.ContactRow)
    ensures !HasMetadata(row) <==> row.fields[10].None? && Contacts.UpdatedAt(row.fields).None?
  {
  }

  /** The decision on a request: by the state of the hydration, or by what is known of the contact when there is
      none. A failure keeps its backoff exactly while it cannot be claimed. */
  lemma DecisionMeaning(state: Option<Hydration>, metadata: bool, now: int)
    ensures var d := DecisionFor(state, metadata, now);
            && (d == Requested <==> state.None? && !metadata)
            && (d == PendingDuplicate <==> state.Some? && state.value.status == Pending)
            && (d == RunningDuplicate <==> state.Some? && state.value.status == Running)
            && (d == Current <==> if state.Some? then state.value.status == Succeeded else metadata)
            && (d == BackoffPreserved <==> state.Some? && state.value.status == Failed && !Claimable(state.value, now))
            && (d == FailedDue <==> state.Some? && state.value.status == Failed && Claimable(state.value, now))
  {
  }

  /** A request adds a pending row that can be claimed at once, only where there is no row and nothing is known. */
  lemma AskedMeaning(rows: Hydrations, contact: nat, metadata: bool, at: int)
    ensures var after := Asked(rows, contact, metadata, at);
            if contact in rows || metadata then after == rows
            else
              && after.Keys == rows.Keys + {contact} && (forall c :: c in rows ==> after[c] == rows[c])
              && var h := after[contact];
                 && h.status == Pending && h.attempts == 0 && h.requested == at && (forall t :: Claimable(h, t))
                 && h.lastAttempt.None? && h.leaseUntil.None? && h.completed.None? && h.failure.None?
  {
  }

  /** When a row can be claimed: not once it has succeeded; a running one when its lease is over; any other when its
      schedule, if there is one, has come. */
  lemma ClaimableMeaning(h: Hydration, t: int)
    ensures Claimable(h, t) <==>
            match h.status
            case Succeeded => false
            case Running => h.leaseUntil.Some? && t >= h.leaseUntil.value
            case _ => h.nextAttempt.Some? ==> t >= h.nextAttempt.value
  {
  }

  /** A claim counts an attempt and runs until its lease ends. */
  lemma ClaimedMeaning(h: Hydration, seconds: int, now: int)
    ensures var next := ClaimedRow(h, seconds, now);
            && next.status == Running && next.attempts == h.attempts + 1 && next.lastAttempt == Some(now)
            && next.leaseUntil == Some(now + seconds) && (forall t :: Claimable(next, t) <==> t >= now + seconds)
            && next.nextAttempt.None?
            && next.requested == h.requested && next.completed == h.completed && next.failure == h.failure
  {
  }

  lemma DoneMeaning(h: Hydration, completed: int)
    ensures var next := DoneRow(h, completed);
            && next.status == Succeeded && next.completed == Some(completed) && (forall t :: !Claimable(next, t))
            && next.leaseUntil.None? && next.nextAttempt.None? && next.failure.None?
            && next.attempts == h.attempts && next.requested == h.requested && next.lastAttempt == h.lastAttempt
  {
  }

  /** A failure is scheduled exactly when it is retryable below the limit. It can be claimed from then on, and at
      once when it is not scheduled. */
  lemma FailedMeaning(h: Hydration, category: string, retryable: bool, limit: int, delay: int, now: int)
    ensures var next := FailedRow(h, category, retryable, limit, delay, now);
            && next.status == Failed && next.failure == Some(category) && next.completed.None? && next.leaseUntil.None?
            && (retryable && h.attempts < limit ==>
                  next.nextAttempt == Some(now + delay) && forall t :: Claimable(next, t) <==> t >= now + delay)
            && (!retryable || h.attempts >= limit ==> next.nextAttempt.None? && forall t :: Claimable(next, t))
            && next.attempts == h.attempts && next.requested == h.requested && next.lastAttempt == h.lastAttempt
  {
  }

  /** The end of a claim changes one row, and only when the claim still runs under its own lease time. */
  lemma EndsMeaning(rows: Hydrations, contact: nat, token: int, category: string, retryable: bool, limit: int,
                    delay: int, now: int)
    ensures var runs := contact in rows && rows[contact].status == Running && rows[contact].leaseUntil == Some(token);
            && Done(rows, contact, token, now) == (if runs then rows[contact := DoneRow(rows[contact], now)] else rows)
            && Broken(rows, contact, token, category, retryable, limit, delay, now) ==
               if runs then rows[contact := FailedRow(rows[contact], category, retryable, limit, delay, now)] else rows
  {
  }

  /** A webhook ends the hydration of its contact, and keeps an earlier completion time. */
  lemma SettledMeaning(rows: Hydrations, contact: nat, now: int)
    ensures var after := Settled(rows, contact, now);
            && after.Keys == rows.Keys && (forall c :: c in rows && c != contact ==> after[c] == rows[c])
            && (contact in rows ==>
                  && after[contact].status == Succeeded && after[contact].completed.Some?
                  && (rows[contact].completed.Some? ==> after[contact].completed == rows[contact].completed)
                  && (rows[contact].completed.None? ==> after[contact].completed == Some(now))
                  && forall t :: !Claimable(after[contact], t))
  {
  }

  class HydrationStore {
    var contacts: ContactTable
    var rows: Hydrations

    /** Every contact id was drawn from the identity sequence. */
    ghost predicate Valid() reads this {
      && (forall e :: e in contacts.rows ==> contacts.rows[e].id < contacts.next)
      && (forall c :: c in rows ==> c < contacts.next)
    }

    constructor ()
      ensures Valid() && contacts == ContactTable(map[], 1) && rows == map[]
    {
      contacts, rows := ContactTable(map[], 1), map[];
    }

    /** `_request_digisac_contact_hydration_sync`. */
    method Request(externalId: string, at: int, now: int) returns (decision: Decision)
      requires Valid()
      modifies this
      ensures Valid()
      ensures decision == InvalidContact <==> Strip(externalId) == ""
      ensures decision == InvalidContact ==> contacts == old(contacts) && rows == old(rows)
      ensures decision != InvalidContact ==>
                && contacts == Referenced(old(contacts), Strip(externalId), at)
                && var row := contacts.rows[Strip(externalId)];
                   && rows == Asked(old(rows), row.id, HasMetadata(row), at)
                   && decision == DecisionFor(Lookup(old(rows), row.id), HasMetadata(row), now)
    {
      var id := Strip(externalId);
      if id == "" {
        return InvalidContact;
      }
      contacts := Referenced(contacts, id, at);
      var contact := contacts.rows[id];
      if contact.id in rows {
        var state := rows[contact.id];
        match state.status {
          case Pending => return PendingDuplicate;
          case Running => return RunningDuplicate;
          case Succeeded => return Current;
          case Failed =>
            return if state.nextAttempt.Some? && state.nextAttempt.value > now then BackoffPreserved else FailedDue;
        }
      }
      if HasMetadata(contact) {
        return Current;
      }
      rows := rows[contact.id := Hydration(Pending, 0, at, None, None, None, None, None)];
      decision := Requested;
    }

    /** `_claim_digisac_contact_hydration_sync`. */
    method Claim(seconds: int, now: int) returns (result: Result<Option<(nat, int)>, string>)
      requires Valid()
      modifies this`rows
      ensures Valid()
      ensures seconds <= 0 ==> result.Err? && rows == old(rows)
      ensures seconds > 0 ==>
                && rows == Claimed(old(rows), contacts.next, seconds, now)
                && var id := Taken(old(rows), contacts.next, now);
                   result == Ok(if id.Some? then Some((id.value, now + seconds)) else None)
    {
      if seconds <= 0 {
        return Err("contact hydration lease must be positive");
      }
      var id := Taken(rows, contacts.next, now);
      if id.None? {
        return Ok(None);
      }
      var h := rows[id.value];
      rows := rows[id.value := h.(status := Running, attempts := h.attempts + 1, lastAttempt := Some(now),
                                  nextAttempt := None, leaseUntil := Some(now + seconds))];
      result := Ok(Some((id.value, now + seconds)));
    }

    /** `_mark_digisac_contact_hydration_success_sync`. */
    method MarkSuccess(externalId: string, token: int, now: int) returns (changed: bool)
      requires Valid()
      modifies this`rows
      ensures Valid()
      ensures changed <==> externalId in contacts.rows && Accepts(old(rows), contacts.rows[externalId].id, token)
      ensures rows == if externalId in contacts.rows then Done(old(rows), contacts.rows[externalId].id, token, now) else old(rows)
    {
      changed := externalId in contacts.rows && Accepts(rows, contacts.rows[externalId].id, token);
      if changed {
        var contact := contacts.rows[externalId].id;
        rows := rows[contact := DoneRow(rows[contact], now)];
      }
    }

    /** `_mark_digisac_contact_hydration_failure_sync`. */
    method MarkFailure(externalId: string, category: string, retryable: bool, token: int, limit: int, delay: int, now: int)
      returns (changed: bool)
      requires Valid()
      modifies this`rows
      ensures Valid()
      ensures changed <==> externalId in contacts.rows && Accepts(old(rows), contacts.rows[externalId].id, token)
      ensures rows ==
              if externalId in contacts.rows then
                Broken(old(rows), contacts.rows[externalId].id, token, category, retryable, limit, delay, now)
              else old(rows)
    {
      if externalId !in contacts.rows || !Accepts(rows, contacts.rows[externalId].id, token) {
        return false;
      }
      var contact := contacts.rows[externalId].id;
      var h := rows[contact];
      var retry := retryable && h.attempts < limit;
      rows := rows[contact := h.(status := Failed, nextAttempt := if retry then Some(now + delay) else None,
                                 leaseUntil := None, completed := None, failure := Some(category))];
      changed := true;
    }
  }

  // ---- Runs -----------------------------------------------------------------------------------------------------

  datatype Event =
    | Tick(elapsed: nat)
    | Reference(contact: nat, metadata: bool, at: int)
    | Claim(bound: nat, seconds: int)
    | Success(contact: nat, token: int)
    | Failure(contact: nat, token: int, category: string, retryable: bool, limit: int, delay: int)
    | Webhook(contact: nat)

  datatype Sys = Sys(rows: Hydrations, now: int)

  function RowsAfter(s: Sys, e: Event): Hydrations {
    match e
    case Tick(_) => s.rows
    case Reference(contact, metadata, at) => Asked(s.rows, contact, metadata, at)
    case Claim(bound, seconds) => if seconds <= 0 then s.rows else Claimed(s.rows, bound, seconds, s.now)
    case Success(contact, token) => Done(s.rows, contact, token, s.now)
    case Failure(contact, token, category, retryable, limit, delay) =>
      Broken(s.rows, contact, token, category, retryable, limit, delay, s.now)
    case Webhook(contact) => Settled(s.rows, contact, s.now)
  }

  function Apply(s: Sys, e: Event): Sys { Sys(RowsAfter(s, e), if e.Tick? then s.now + e.elapsed else s.now) }

  function Run(s: Sys, es: seq<Event>): Sys {
    if es == [] then s else Apply(Run(s, es[..|es| - 1]), es[|es| - 1])
  }

  ghost predicate RowOk(h: Hydration) {
    && (h.leaseUntil.Some? <==> h.status == Running)
    && (h.status in {Running, Succeeded} ==> h.nextAttempt.None?)
    && (h.status == Succeeded ==> h.completed.Some? && h.failure.None?)
  }

  ghost predicate Inv(rows: Hydrations) { forall c :: c in rows ==> RowOk(rows[c]) }

  lemma StepKept(s: Sys, e: Event)
    requires Inv(s.rows)
    ensures Inv(Apply(s, e).rows) && s.rows.Keys <= Apply(s, e).rows.Keys && s.now <= Apply(s, e).now
  {
  }

  lemma {:induction false} RunKept(s: Sys, es: seq<Event>)
    requires Inv(s.rows)
    ensures Inv(Run(s, es).rows) && s.rows.Keys <= Run(s, es).rows.Keys && s.now <= Run(s, es).now
  {
    if es != [] {
      RunKept(s, es[..|es| - 1]);
      StepKept(Run(s, es[..|es| - 1]), es[|es| - 1]);
    }
  }

  /** A message reference never touches a hydration that exists, not even one that waits for a later attempt. */
  lemma ReferenceUntouched(s: Sys, e: Event, contact: nat)
    requires e.Reference? && contact in s.rows
    ensures contact in Apply(s, e).rows && Apply(s, e).rows[contact] == s.rows[contact]
  {
  }

  /** A hydration that succeeded is the same row forever. */
  lemma {:induction false} SucceededForever(s: Sys, es: seq<Event>, contact: nat)
    requires Inv(s.rows) && contact in s.rows && s.rows[contact].status == Succeeded
    ensures contact in Run(s, es).rows && Run(s, es).rows[contact] == s.rows[contact]
  {
    if es != [] {
      RunKept(s, es[..|es| - 1]);
      SucceededForever(s, es[..|es| - 1], contact);
    }
  }

  // ---- Fencing ------------------------------------------------------------------------------------------------------

  /** The transaction claims the contact; its token is the lease time. */
  predicate Wins(s: Sys, e: Event, contact: nat) {
    e.Claim? && e.seconds > 0 && Taken(s.rows, e.bound, s.now) == Some(contact)
  }

  function Token(s: Sys, e: Event): int
    requires e.Claim?
  {
    s.now + e.seconds
  }

  /** The token is past, and no claim of the contact has it. */
  ghost predicate Dead(s: Sys, contact: nat, token: int) {
    && contact in s.rows && s.now >= token
    && (s.rows[contact].leaseUntil.Some? ==> s.rows[contact].leaseUntil.value > token)
  }

  /** A claim that was retaken after its lease ended is dead. */
  lemma RetakenIsDead(s: Sys, e: Event, contact: nat, token: int)
    requires Wins(s, e, contact) && contact in s.rows && s.now >= token
    ensures Dead(Apply(s, e), contact, token)
  {
  }

  lemma DeadStep(s: Sys, e: Event, contact: nat, token: int)
    requires Dead(s, contact, token)
    ensures Dead(Apply(s, e), contact, token)
  {
  }

  /** The transaction tries to end the claim with this token. */
  predicate Ends(e: Event, contact: nat, token: int) {
    (e.Success? || e.Failure?) && e.contact == contact && e.token == token
  }

  /** Once dead, a token stays dead: a late end of its claim changes nothing, then and ever after. */
  lemma {:induction false} DeadForever(s: Sys, es: seq<Event>, e: Event, contact: nat, token: int)
    requires Dead(s, contact, token) && Ends(e, contact, token)
    ensures Dead(Run(s, es), contact, token) && Apply(Run(s, es), e) == Run(s, es)
  {
    if es != [] {
      DeadForever(s, es[..|es| - 1], e, contact, token);
      DeadStep(Run(s, es[..|es| - 1]), es[|es| - 1], contact, token);
    }
  }

  /** The holder's own failure, accepted. */
  predicate FailsWith(s: Sys, e: Event, contact: nat, token: int) {
    e.Failure? && e.contact == contact && e.token == token && Accepts(s.rows, contact, token)
  }

  /** A failure that frees its token: it comes before the lease ends, and leaves no schedule or one that is
      due before the lease ends. */
  predicate Frees(s: Sys, e: Event, contact: nat, token: int) {
    && FailsWith(s, e, contact, token) && s.now < token
    && contact in Apply(s, e).rows
    && var next := Apply(s, e).rows[contact].nextAttempt; next.None? || next.value < token
  }

  /** No later claim of the contact can have the token. */
  ghost predicate Shut(s: Sys, contact: nat, token: int) {
    && Inv(s.rows) && contact in s.rows
    && var h := s.rows[contact];
       || h.status == Succeeded || s.now >= token
       || (h.status == Failed && h.nextAttempt.Some? && h.nextAttempt.value >= token)
  }

  lemma ShutStep(s: Sys, e: Event, contact: nat, token: int)
    requires Shut(s, contact, token)
    ensures Shut(Apply(s, e), contact, token)
    ensures Wins(s, e, contact) ==> Token(s, e) > token
  {
    StepKept(s, e);
  }

  lemma {:induction false} ShutForever(s: Sys, es: seq<Event>, contact: nat, token: int)
    requires Shut(s, contact, token)
    ensures Shut(Run(s, es), contact, token)
  {
    if es != [] {
      ShutForever(s, es[..|es| - 1], contact, token);
      ShutStep(Run(s, es[..|es| - 1]), es[|es| - 1], contact, token);
    }
  }

  /** The claim with this token runs, or its token is shut. */
  ghost predicate Held(s: Sys, contact: nat, token: int) {
    Inv(s.rows) && (Accepts(s.rows, contact, token) || Shut(s, contact, token))
  }

  lemma WinHolds(s: Sys, e: Event, contact: nat)
    requires Inv(s.rows) && Wins(s, e, contact)
    ensures Held(Apply(s, e), contact, Token(s, e))
  {
    StepKept(s, e);
  }

  lemma HeldStep(s: Sys, e: Event, contact: nat, token: int)
    requires Held(s, contact, token) && !Frees(s, e, contact, token)
    ensures Held(Apply(s, e), contact, token)
    ensures Wins(s, e, contact) ==> Token(s, e) > token
  {
    StepKept(s, e);
    if Shut(s, contact, token) { ShutStep(s, e, contact, token); }
  }

  ghost predicate Freed(s: Sys, es: seq<Event>, a: nat, b: nat, contact: nat, token: int)
    requires b <= |es|
  {
    exists m :: a < m < b && Frees(Run(s, es[..m]), es[m], contact, token)
  }

  lemma {:induction false} HeldLasts(s: Sys, es: seq<Event>, a: nat, b: nat, contact: nat, token: int)
    requires Inv(s.rows) && a < b <= |es| && Wins(Run(s, es[..a]), es[a], contact)
    requires token == Token(Run(s, es[..a]), es[a]) && !Freed(s, es, a, b, contact, token)
    ensures Held(Run(s, es[..b]), contact, token)
    decreases b
  {
    hide Apply, Frees, Held;
    assert es[..b][..b - 1] == es[..b - 1];
    if b == a + 1 {
      RunKept(s, es[..a]);
      WinHolds(Run(s, es[..a]), es[a], contact);
    } else {
      HeldLasts(s, es, a, b - 1, contact, token);
      HeldStep(Run(s, es[..b - 1]), es[b - 1], contact, token);
    }
  }

  /** The tokens of successive claims of a contact increase, so that no late end can be taken for another's,
      unless in between the first holder itself recorded a failure that frees its token. */
  lemma TokensIncrease(s: Sys, es: seq<Event>, a: nat, b: nat, contact: nat)
    requires Inv(s.rows) && a < b < |es|
    requires Wins(Run(s, es[..a]), es[a], contact) && Wins(Run(s, es[..b]), es[b], contact)
    ensures var first := Token(Run(s, es[..a]), es[a]);
            Token(Run(s, es[..b]), es[b]) > first || Freed(s, es, a, b, contact, first)
  {
    var first := Token(Run(s, es[..a]), es[a]);
    if !Freed(s, es, a, b, contact, first) {
      HeldLasts(s, es, a, b, contact, first);
      assert !Frees(Run(s, es[..b]), es[b], contact, first);
      HeldStep(Run(s, es[..b]), es[b], contact, first);
    }
  }

  // ---- When a token is used again --------------------------------------------------------------------------------

  /** Webhooks that settle every contact below `n` but one. */
  function Quieting(contact: nat, n: nat): seq<Event> {
    if n == 0 then [] else if n - 1 == contact then Quieting(contact, n - 1) else Quieting(contact, n - 1) + [Webhook(n - 1)]
  }

  /** The contacts below `n`, but for one, are settled, and that one is left alone. */
  ghost predicate Quiet(s: Sys, t: Sys, contact: nat, n: nat) {
    && t.now == s.now && Inv(t.rows) && contact in s.rows && contact in t.rows && t.rows[contact] == s.rows[contact]
    && forall c :: c in t.rows && c < n && c != contact ==> t.rows[c].status == Succeeded
  }

  lemma QuietOne(s: Sys, t: Sys, contact: nat, n: nat)
    requires Quiet(s, t, contact, n)
    ensures n == contact ==> Quiet(s, t, contact, n + 1)
    ensures n != contact ==> Quiet(s, Apply(t, Webhook(n)), contact, n + 1)
  {
    StepKept(t, Webhook(n));
  }

  lemma {:induction false} Quieted(s: Sys, contact: nat, n: nat)
    requires Inv(s.rows) && contact in s.rows
    ensures Quiet(s, Run(s, Quieting(contact, n)), contact, n)
  {
    if n > 0 {
      hide Apply, Quiet;
      Quieted(s, contact, n - 1);
      QuietOne(s, Run(s, Quieting(contact, n - 1)), contact, n - 1);
      if n - 1 != contact {
        assert Quieting(contact, n)[..|Quieting(contact, n)| - 1] == Quieting(contact, n - 1);
      }
    }
  }

  /** The others are settled, and time goes on to the schedule, if there is one. */
  function ReusePath(s: Sys, contact: nat, bound: nat): seq<Event>
    requires contact in s.rows
  {
    var next := s.rows[contact].nextAttempt;
    Quieting(contact, bound) + [Tick(if next.Some? && next.value > s.now then next.value - s.now else 0)]
  }

  lemma OnlyClaimable(rows: Hydrations, contact: nat, bound: nat, now: int)
    requires contact in rows && contact < bound && Claimable(rows[contact], now)
    requires forall c :: c in rows && c < bound && c != contact ==> !Claimable(rows[c], now)
    ensures Taken(rows, bound, now) == Some(contact)
  {
    var keys := ClaimKeys(rows, bound, now);
    assert contact in Candidates(keys);
    assert forall i :: i in Candidates(keys) ==> i == contact;
  }

  /** After the path the contact is due, and it is the only one. */
  lemma PathReady(s: Sys, contact: nat, token: int, bound: nat)
    requires Inv(s.rows) && contact in s.rows && s.rows[contact].status == Failed && contact < bound && s.now < token
    requires s.rows[contact].nextAttempt.Some? ==> s.rows[contact].nextAttempt.value < token
    ensures var t := Run(s, ReusePath(s, contact, bound));
            && t.now < token && Taken(t.rows, bound, t.now) == Some(contact)
  {
    hide Taken, Settled;
    Quieted(s, contact, bound);
    var path := ReusePath(s, contact, bound);
    assert path[..|path| - 1] == Quieting(contact, bound);
    var t := Run(s, path);
    OnlyClaimable(t.rows, contact, bound, t.now);
  }

  lemma ClaimThenEnd(t: Sys, bound: nat, seconds: int, contact: nat)
    requires Taken(t.rows, bound, t.now) == Some(contact) && seconds > 0
    ensures var u := Apply(Apply(t, Claim(bound, seconds)), Success(contact, t.now + seconds));
            contact in u.rows && u.rows[contact].status == Succeeded
  {
    hide Taken;
  }

  /** A freed token is used again in some continuation, whatever the other rows are, and then a second end by
      the first holder finishes the second claim. */
  lemma TokenReused(s: Sys, e: Event, contact: nat, token: int, bound: nat)
    requires Inv(s.rows) && Frees(s, e, contact, token) && contact < bound
    ensures var t := Run(Apply(s, e), ReusePath(Apply(s, e), contact, bound));
            var claim := Claim(bound, token - t.now);
            && Wins(t, claim, contact) && Token(t, claim) == token
            && var u := Apply(Apply(t, claim), Success(contact, token));
               contact in u.rows && u.rows[contact].status == Succeeded
  {
    StepKept(s, e);
    FailureLeaves(s, e, contact, token);
    hide Apply, Run, Taken;
    PathReady(Apply(s, e), contact, token, bound);
    var t := Run(Apply(s, e), ReusePath(Apply(s, e), contact, bound));
    ClaimThenEnd(t, bound, token - t.now, contact);
  }

  lemma FailureLeaves(s: Sys, e: Event, contact: nat, token: int)
    requires Frees(s, e, contact, token)
    ensures Apply(s, e).now == s.now && Apply(s, e).rows[contact].status == Failed
  {
  }

  /** Some continuation claims the contact again under the token. */
  ghost predicate CanReuse(s: Sys, contact: nat, token: int) {
    exists es, claim :: ReusedBy(s, es, claim, contact, token)
  }

  ghost predicate ReusedBy(s: Sys, es: seq<Event>, claim: Event, contact: nat, token: int) {
    Wins(Run(s, es), claim, contact) && Token(Run(s, es), claim) == token
  }

  /** When a failure lets its token be used again: exactly when it comes before the lease ends, and leaves no
      schedule or one that is due before the lease ends. */
  lemma TokenReusedExactly(s: Sys, e: Event, contact: nat, token: int)
    requires Inv(s.rows) && FailsWith(s, e, contact, token)
    ensures contact in Apply(s, e).rows
    ensures var next := Apply(s, e).rows[contact].nextAttempt;
            CanReuse(Apply(s, e), contact, token) <==> s.now < token && (next.None? || next.value < token)
  {
    var t := Apply(s, e);
    StepKept(s, e);
    if Frees(s, e, contact, token) {
      TokenReused(s, e, contact, token, contact + 1);
      var path := ReusePath(t, contact, contact + 1);
      assert ReusedBy(t, path, Claim(contact + 1, token - Run(t, path).now), contact, token);
    } else {
      forall es, claim ensures !ReusedBy(t, es, claim, contact, token) {
        ShutForever(t, es, contact, token);
        ShutStep(Run(t, es), claim, contact, token);
      }
    }
  }

  // ---- Attempts -------------------------------------------------------------------------------------------------------

  /** How often a run claims the contact. */
  function WinCount(s: Sys, es: seq<Event>, contact: nat): nat {
    if es == [] then 0
    else WinCount(s, es[..|es| - 1], contact) + if Wins(Run(s, es[..|es| - 1]), es[|es| - 1], contact) then 1 else 0
  }

  function Attempts(rows: Hydrations, contact: nat): nat { if contact in rows then rows[contact].attempts else 0 }

  /** The attempts of a contact count its claims, no more and no less. */
  lemma {:induction false} AttemptsCountClaims(s: Sys, es: seq<Event>, contact: nat)
    ensures Attempts(Run(s, es).rows, contact) == Attempts(s.rows, contact) + WinCount(s, es, contact)
  {
    if es != [] {
      AttemptsCountClaims(s, es[..|es| - 1], contact);
    }
  }
}
