/** The provider boundary: `src/core/acessorias_request_provider.py`.

    A provider is an arbitrary sequence of replies, one for every POST that is made. */
module RequestProvider {
  import opened Common

  /** States of a durable operation; an outcome names the state it asks for. */
  datatype RequestState =
    NotStarted | Attempting | RetryableFailure | ReconciliationRequired | Completed | DefinitiveFailure

  /** The JSON value under `id`. Python's booleans are integers, so they are rendered too. */
  datatype IdValue = Absent | Text(s: string) | Number(n: int) | Truth(b: bool) | OtherValue

  /** A JSON object: its id, and whether it has a key "Erro" or "erro". */
  datatype Body = Body(id: IdValue, hasError: bool)

  /** What one POST ends in. `Response.body` is None when it is not a JSON object. */
  datatype Reply =
    | PreSendError
    | TimeoutError
    | TransportError
    | Response(status: int, body: Option<Body>)

  datatype Outcome = Outcome(state: RequestState, category: string, solId: Option<string>, providerStatus: Option<int>)

  /** What the loop does after one reply. */
  datatype Decision = Again | Return(outcome: Outcome)

  function Digits(n: nat): (r: string)
    ensures |r| > 0 && forall i :: 0 <= i < |r| ==> '0' <= r[i] <= '9'
  {
    var d := ('0' as int + n % 10) as char;
    if n < 10 then [d] else Digits(n / 10) + [d]
  }

  /** The number that a text of decimal digits reads as. */
  function Decimal(s: string): nat
    requires forall i :: 0 <= i < |s| ==> '0' <= s[i] <= '9'
  {
    if s == "" then 0 else 10 * Decimal(s[..|s| - 1]) + (s[|s| - 1] as int - '0' as int)
  }

  /** A decimal numeral without leading zeros. */
  predicate IsNumeral(s: string) {
    s != "" && (forall i :: 0 <= i < |s| ==> '0' <= s[i] <= '9') && (|s| > 1 ==> s[0] != '0')
  }

  /** `Digits` writes the number that it is given. */
  lemma {:induction false} DigitsRead(n: nat)
    ensures IsNumeral(Digits(n)) && Decimal(Digits(n)) == n && (n > 0 ==> Digits(n)[0] != '0')
  {
    var d := ('0' as int + n % 10) as char;
    if n < 10 {
      assert Digits(n) == [d] && Decimal([d]) == 10 * Decimal([d][..0]) + n;
    } else {
      DigitsRead(n / 10);
      var rest := Digits(n / 10);
      assert (rest + [d])[..|rest|] == rest;
    }
  }

  /** `str(provider_id)` for the values that `isinstance(provider_id, (str, int))` accepts. */
  function Rendered(id: IdValue): Option<string> {
    match id
    case Text(s) => Some(s)
    case Number(n) => Some(if n < 0 then "-" + Digits(-n) else Digits(n))
    case Truth(b) => Some(if b then "True" else "False")
    case _ => None
  }

  /** The id text of a reply, when the loop takes it for an id. */
  function ReplyId(reply: Reply): Option<string> {
    if !reply.Response? || reply.body.None? then None else
    var text := Rendered(reply.body.value.id);
    if text.Some? && Strip(text.value) != "" then Some(Strip(text.value)) else None
  }

  /** The value is an id: a text that is not blank, or an integer, a boolean being one. */
  predicate IsId(v: IdValue) {
    v.Number? || v.Truth? || (v.Text? && exists i :: 0 <= i < |v.s| && !IsSpace(v.s[i]))
  }

  /** What the recorded text of an id says. */
  ghost predicate SaysId(v: IdValue, text: string) {
    match v
    case Text(s) => text != "" && Padded(s, text)
    case Number(n) =>
      if n < 0 then text != "" && text[0] == '-' && IsNumeral(text[1..]) && Decimal(text[1..]) == -n
      else IsNumeral(text) && Decimal(text) == n
    case Truth(b) => text == if b then "True" else "False"
    case _ => false
  }

  ghost predicate HasId(reply: Reply) { reply.Response? && reply.body.Some? && IsId(reply.body.value.id) }

  lemma NoSpacesStay(s: string)
    requires forall i :: 0 <= i < |s| ==> !IsSpace(s[i])
    ensures Strip(s) == s
  {
    assert StripLeft(s) == s;
  }

  lemma NumberSays(n: int)
    ensures var text := Rendered(Number(n)).value; Strip(text) == text && text != "" && SaysId(Number(n), text)
  {
    hide Strip, Decimal, Digits;
    DigitsRead(if n < 0 then -n else n);
    var digits := Digits(if n < 0 then -n else n);
    assert ("-" + digits)[1..] == digits;
    NoSpacesStay(Rendered(Number(n)).value);
  }

  lemma TextSays(s: string)
    ensures IsId(Text(s)) <==> Strip(s) != ""
    ensures IsId(Text(s)) ==> SaysId(Text(s), Strip(s))
  {
    hide Strip, IsSpace, Padded;
    StripMeaning(s);
  }

  lemma RenderedSays(v: IdValue)
    ensures IsId(v) <==> Rendered(v).Some? && Strip(Rendered(v).value) != ""
    ensures IsId(v) ==> SaysId(v, Strip(Rendered(v).value))
  {
    hide Strip, Digits, Decimal, Padded, IsSpace;
    match v
    case Text(s) => TextSays(s);
    case Number(n) => NumberSays(n);
    case Truth(b) => TruthStays(b);
    case _ =>
  }

  lemma TruthStays(b: bool)
    ensures Strip(if b then "True" else "False") == if b then "True" else "False"
  {
    NoSpacesStay(if b then "True" else "False");
  }

  /** A reply has an id text exactly when its body has an id, and then the text says that id. */
  lemma ReplyIdMeaning(reply: Reply)
    ensures ReplyId(reply).Some? <==> HasId(reply)
    ensures HasId(reply) ==> SaysId(reply.body.value.id, ReplyId(reply).value)
  {
    hide Rendered, Strip, SaysId, IsId;
    if reply.Response? && reply.body.Some? { RenderedSays(reply.body.value.id); }
  }

  predicate SafeSolId(s: string) {
    Matches(s, c => !IsSpace(c) && c >= ' ' && c != '\U{7f}', 160)
  }

  /** The replies that prove the provider created nothing: the transport never sent the POST, or
      the provider answered 408 or 425 without an id. */
  predicate ProvenUnsent(reply: Reply) {
    || reply.PreSendError?
    || (reply.Response? && ReplyId(reply).None? && reply.status in {408, 425})
  }

  function Reconcile(category: string, status: Option<int>): Outcome {
    Outcome(ReconciliationRequired, category, None, status)
  }

  function Definitive(category: string, status: Option<int>): Outcome {
    Outcome(DefinitiveFailure, category, None, status)
  }

  function Retryable(category: string, status: Option<int>): Outcome {
    Outcome(RetryableFailure, category, None, status)
  }

  /** `AcessoriasRequestOutcome.success`, with its ValueError mapped as the loop maps it. */
  function Success(id: string, status: int): Outcome {
    if SafeSolId(Strip(id)) then Outcome(Completed, "provider_success", Some(Strip(id)), Some(status))
    else Reconcile("invalid_provider_id", Some(status))
  }

  /** The body of the attempt loop after the POST of attempt `attempt`, counted from 1. */
  function Decide(attempt: nat, maxAttempts: nat, reply: Reply): Decision {
    match reply
    case PreSendError =>
      if attempt < maxAttempts then Again else Return(Retryable("pre_send_connection", None))
    case TimeoutError => Return(Reconcile("timeout_after_send", None))
    case TransportError => Return(Reconcile("uncertain_transport", None))
    case Response(status, body) =>
      var id := ReplyId(reply);
      if id.Some? then Return(Success(id.value, status))
      else if status == 429 then Return(Reconcile("uncertain_rate_limit", Some(status)))
      else if status in {408, 425} then
        if attempt < maxAttempts then Again
        else Return(Retryable("safe_transient_rejection", Some(status)))
      else if status in {401, 403} then Return(Definitive("authentication_or_permission", Some(status)))
      else if status >= 500 then Return(Reconcile("uncertain_5xx", Some(status)))
      else if body.Some? && body.value.hasError then Return(Definitive("provider_error", Some(status)))
      else if status >= 400 then Return(Definitive("provider_rejection", Some(status)))
      else Return(Reconcile("missing_id", Some(status)))
  }

  /** Which replies prove that nothing was created, from the reply itself. */
  lemma UnsentMeaning(reply: Reply)
    ensures ProvenUnsent(reply) <==>
            reply.PreSendError? || (reply.Response? && !HasId(reply) && reply.status in {408, 425})
  {
    hide ReplyId, HasId;
    ReplyIdMeaning(reply);
  }

  predicate CategoryChar(c: char) { IsLowerAlnum(c) || c in "_:-" }

  /** Every maximal run of characters outside the category alphabet becomes one underscore. */
  function Collapse(s: string, inRun: bool): (r: string)
    ensures forall i :: 0 <= i < |r| ==> CategoryChar(r[i])
  {
    if s == "" then ""
    else if CategoryChar(s[0]) then [s[0]] + Collapse(s[1..], false)
    else if inRun then Collapse(s[1..], true)
    else "_" + Collapse(s[1..], true)
  }

  function TrimUnderscores(s: string): (r: string)
    ensures forall i :: 0 <= i < |r| ==> r[i] in s
  {
    if s != "" && s[0] == '_' then TrimUnderscores(s[1..])
    else if s != "" && s[|s| - 1] == '_' then TrimUnderscores(s[..|s| - 1])
    else s
  }

  /** `_safe_category`: the result always satisfies the table's check on failure categories. */
  function SafeCategory(value: string): (r: string)
    ensures Matches(r, CategoryChar, 120)
  {
    var normalized := TrimUnderscores(Collapse(Lower(value), false));
    if normalized == "" then "provider_error"
    else if |normalized| > 120 then normalized[..120]
    else normalized
  }

  /** The characters of a category, without its underscores. */
  function Letters(s: string): string {
    if s == "" then "" else (if CategoryChar(s[0]) && s[0] != '_' then [s[0]] else "") + Letters(s[1..])
  }

  lemma {:induction false} LettersConcat(a: string, b: string)
    ensures Letters(a + b) == Letters(a) + Letters(b)
  {
    if a == "" {
      assert a + b == b;
    } else {
      LettersConcat(a[1..], b);
      assert (a + b)[1..] == a[1..] + b;
    }
  }

  lemma {:induction false} CollapseLetters(s: string, inRun: bool)
    ensures Letters(Collapse(s, inRun)) == Letters(s)
  {
    if s != "" {
      var next := CategoryChar(s[0]);
      CollapseLetters(s[1..], !next);
      if next { LettersConcat([s[0]], Collapse(s[1..], false)); } else { LettersConcat("_", Collapse(s[1..], true)); }
    }
  }

  lemma {:induction false} TrimLetters(s: string)
    ensures Letters(TrimUnderscores(s)) == Letters(s)
    decreases |s|
  {
    if s != "" && s[0] == '_' {
      TrimLetters(s[1..]);
    } else if s != "" && s[|s| - 1] == '_' {
      TrimLetters(s[..|s| - 1]);
      LettersConcat(s[..|s| - 1], "_");
      assert s == s[..|s| - 1] + "_";
    }
  }

  /** A category keeps the letters of its value, in lower case and in order, as far as there is room. */
  lemma SafeCategoryLetters(value: string)
    ensures Letters(SafeCategory(value)) <= Letters(Lower(value)) || SafeCategory(value) == "provider_error"
    ensures |SafeCategory(value)| < 120 ==>
              Letters(SafeCategory(value)) == Letters(Lower(value)) || (SafeCategory(value) == "provider_error" && Letters(Lower(value)) == "")
  {
    var normalized := TrimUnderscores(Collapse(Lower(value), false));
    CollapseLetters(Lower(value), false);
    TrimLetters(Collapse(Lower(value), false));
    if |normalized| > 120 {
      assert normalized == normalized[..120] + normalized[120..];
      LettersConcat(normalized[..120], normalized[120..]);
    }
  }

  lemma {:induction false} CollapseSafe(s: string)
    requires forall i :: 0 <= i < |s| ==> CategoryChar(s[i])
    ensures Collapse(s, false) == s
  {
    if s != "" { CollapseSafe(s[1..]); }
  }

  /** A category that is safe already is itself. */
  lemma SafeCategoryKeeps(value: string)
    requires Matches(value, CategoryChar, 120) && value[0] != '_' && value[|value| - 1] != '_'
    ensures SafeCategory(value) == value
  {
    assert Lower(value) == value;
    CollapseSafe(value);
  }

  /** An outcome that the adapter can return: an id exactly when it is completed, and a safe one. */
  predicate WellFormed(o: Outcome) {
    && o.state !in {NotStarted, Attempting}
    && (o.solId.Some? <==> o.state == Completed)
    && (o.solId.Some? ==> SafeSolId(o.solId.value))
  }

  lemma StripStable(s: string)
    ensures Strip(Strip(s)) == Strip(s)
  {
    var t := Strip(s);
    assert StripLeft(t) == t;
  }

  /** One reply, read from its meaning: the loop goes on only after a proof that nothing was created;
      it asks for a retry only with that proof, on the last attempt; it completes exactly on a safe id;
      and every reply that proves neither creation nor rejection needs reconciliation. */
  lemma ReplyMeaning(attempt: nat, maxAttempts: nat, reply: Reply)
    requires 1 <= attempt <= maxAttempts
    ensures var d := Decide(attempt, maxAttempts, reply);
            && (d.Again? <==> ProvenUnsent(reply) && attempt < maxAttempts)
            && (d.Return? ==> WellFormed(d.outcome))
            && (d.Return? ==> (d.outcome.state == RetryableFailure <==> ProvenUnsent(reply)))
            && (d.Return? ==> (d.outcome.state == Completed <==>
                                 ReplyId(reply).Some? && SafeSolId(ReplyId(reply).value)))
            && (d.Return? && d.outcome.state == Completed ==> d.outcome.solId == ReplyId(reply))
            && (d.Return? ==> (d.outcome.state == DefinitiveFailure <==>
                                 && reply.Response? && ReplyId(reply).None?
                                 && reply.status !in {408, 425, 429} && reply.status < 500
                                 && (reply.status >= 400 || (reply.body.Some? && reply.body.value.hasError))))
  {
    if ReplyId(reply).Some? {
      StripStable(Rendered(reply.body.value.id).value);
    }
  }

  /** The category and the status that each reply ends in, when the loop does not go on. */
  lemma ReplyCategory(attempt: nat, maxAttempts: nat, reply: Reply)
    requires Decide(attempt, maxAttempts, reply).Return?
    ensures var o := Decide(attempt, maxAttempts, reply).outcome;
            && o.providerStatus == (if reply.Response? then Some(reply.status) else None)
            && (reply.PreSendError? ==> o.category == "pre_send_connection")
            && (reply.TimeoutError? ==> o.category == "timeout_after_send")
            && (reply.TransportError? ==> o.category == "uncertain_transport")
            && (HasId(reply) ==> o.category == if o.state == Completed then "provider_success" else "invalid_provider_id")
            && (reply.Response? && !HasId(reply) ==>
                  var refused := reply.body.Some? && reply.body.value.hasError;
                  && (o.category == "uncertain_rate_limit" <==> reply.status == 429)
                  && (o.category == "safe_transient_rejection" <==> reply.status in {408, 425})
                  && (o.category == "authentication_or_permission" <==> reply.status in {401, 403})
                  && (o.category == "uncertain_5xx" <==> reply.status >= 500)
                  && (reply.status < 500 && reply.status !in {401, 403, 408, 425, 429} ==>
                        && (o.category == "provider_error" <==> refused)
                        && (o.category == "provider_rejection" <==> !refused && reply.status >= 400)
                        && (o.category == "missing_id" <==> !refused && reply.status < 400)))
  {
    hide ReplyId, HasId, SafeSolId, Strip;
    ReplyIdMeaning(reply);
    IdNeedsResponse(reply);
  }

  lemma IdNeedsResponse(reply: Reply)
    ensures ReplyId(reply).Some? ==> reply.Response?
  {
  }

  lemma CompletionSays(attempt: nat, maxAttempts: nat, reply: Reply)
    requires 1 <= attempt <= maxAttempts
    ensures var d := Decide(attempt, maxAttempts, reply);
            d.Return? && d.outcome.state == Completed ==>
              HasId(reply) && d.outcome.solId.Some? && SaysId(reply.body.value.id, d.outcome.solId.value)
  {
    hide Decide, SaysId, SafeSolId;
    ReplyMeaning(attempt, maxAttempts, reply);
    ReplyIdMeaning(reply);
  }

  /** `AcessoriasRequestAdapter.create_request`. `replies(i)` is what POST number i, from 0, ends in.
      The adapter's constructor refuses `maxAttempts <= 0`. */
  method CreateRequest(hasToken: bool, maxAttempts: nat, replies: nat -> Reply)
    returns (outcome: Outcome, sends: nat)
    requires maxAttempts > 0
    ensures !hasToken ==> sends == 0 && outcome == Definitive("missing_credentials", None)
    ensures hasToken ==> 1 <= sends <= maxAttempts
    ensures forall i :: 0 <= i < sends - 1 ==> ProvenUnsent(replies(i))
    ensures outcome.state == RetryableFailure <==> hasToken && ProvenUnsent(replies(sends - 1))
    ensures outcome.state == RetryableFailure ==> sends == maxAttempts
    ensures outcome.state == Completed <==>
            hasToken && ReplyId(replies(sends - 1)).Some? && SafeSolId(ReplyId(replies(sends - 1)).value)
    ensures outcome.state == Completed ==> outcome.solId == ReplyId(replies(sends - 1))
    ensures outcome.state == Completed ==>
              var reply := replies(sends - 1);
              HasId(reply) && outcome.solId.Some? && SaysId(reply.body.value.id, outcome.solId.value)
    ensures forall i :: 0 <= i < sends - 1 ==>
              replies(i).PreSendError? || (replies(i).Response? && !HasId(replies(i)) && replies(i).status in {408, 425})
    ensures WellFormed(outcome)
    ensures hasToken ==> Decide(sends, maxAttempts, replies(sends - 1)) == Return(outcome)
  {
    hide Decide, ReplyId, HasId, SaysId, ProvenUnsent, SafeSolId;
    sends := 0;
    if !hasToken {
      return Definitive("missing_credentials", None), 0;
    }
    for attempt := 1 to maxAttempts + 1
      invariant sends == attempt - 1
      invariant forall i :: 0 <= i < sends ==> ProvenUnsent(replies(i))
      invariant forall i :: 0 <= i < sends ==>
                  replies(i).PreSendError? || (replies(i).Response? && !HasId(replies(i)) && replies(i).status in {408, 425})
      invariant attempt <= maxAttempts
    {
      var reply := replies(sends);
      sends := sends + 1;
      ReplyMeaning(attempt, maxAttempts, reply);
      UnsentMeaning(reply);
      CompletionSays(attempt, maxAttempts, reply);
      var decision := Decide(attempt, maxAttempts, reply);
      if decision.Return? {
        return decision.outcome, sends;
      }
    }
    // The statement after the loop is never reached.
    assert false;
  }
}
