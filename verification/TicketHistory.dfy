/** The paging accumulator of a ticket's messages: `get_ticket_history` of `src/core/digisac_client.py`. */
module TicketHistory {
  import opened Common

  /** An item of a page: not an object, or an object with what it has as a text id. */
  datatype Item = NotObject | Object(id: Option<string>, payload: string)

  /** One response: a page with well-typed counters, something else, or an error that the client raises. */
  datatype Answer = Page(data: seq<Item>, currentPage: int, lastPage: int, total: int) | IllTyped | Failed

  datatype Message = Message(id: string, payload: string)

  datatype History = History(messages: seq<Message>, pageCount: nat, total: int, duplicates: nat, complete: bool,
                             reasons: seq<string>)

  datatype Error = ResponseError | ClientError

  /** The structure check of page `n`. */
  predicate ValidPage(p: Answer, n: int) {
    && p.Page? && p.currentPage == n && p.lastPage >= p.currentPage && p.total >= 0
    && !(p.data == [] && p.currentPage < p.lastPage)
  }

  predicate HasId(x: Item) { x.Object? && x.id.Some? && Strip(x.id.value) != "" }

  /** An item has an id when it is an object whose id is not blank. */
  lemma HasIdMeaning(x: Item)
    ensures HasId(x) <==> x.Object? && x.id.Some? && exists i :: 0 <= i < |x.id.value| && !IsSpace(x.id.value[i])
  {
    if x.Object? && x.id.Some? { StripMeaning(x.id.value); }
  }

  // ---- What a list of items says --------------------------------------------------------------------

  function Ids(items: seq<Item>): (ids: seq<string>)
    ensures |ids| <= |items|
  {
    if items == [] then []
    else Ids(items[..|items| - 1]) + if HasId(items[|items| - 1]) then [items[|items| - 1].id.value] else []
  }

  /** The distinct values, each where it stands first: `list(dict.fromkeys(...))`. */
  function FirstSeen(values: seq<string>): (seen: seq<string>)
    ensures |seen| <= |values|
    ensures forall v :: v in seen <==> v in values
  {
    if values == [] then []
    else
      var rest, last := values[..|values| - 1], values[|values| - 1];
      assert values == rest + [last];
      if last in FirstSeen(rest) then FirstSeen(rest) else FirstSeen(rest) + [last]
  }

  predicate FirstAt(values: seq<string>, v: string, i: nat) {
    i < |values| && values[i] == v && forall j :: 0 <= j < i ==> values[j] != v
  }

  /** `FirstSeen` has no repetition, and it keeps the order of the first occurrences. */
  lemma {:induction false} FirstSeenMeaning(values: seq<string>)
    ensures var seen := FirstSeen(values);
            && (forall i, j :: 0 <= i < j < |seen| ==> seen[i] != seen[j])
            && (forall i, j, a, b :: 0 <= i < j < |seen| && FirstAt(values, seen[i], a) && FirstAt(values, seen[j], b) ==> a < b)
  {
    if values != [] {
      var rest, last := values[..|values| - 1], values[|values| - 1];
      var seen := FirstSeen(values);
      FirstSeenMeaning(rest);
      forall i, j, a: nat, b: nat | 0 <= i < j < |seen| && FirstAt(values, seen[i], a) && FirstAt(values, seen[j], b)
        ensures a < b
      {
        assert seen[i] in FirstSeen(rest);
        FirstInRest(values, seen[i], a);
        if seen[j] in rest {
          FirstInRest(values, seen[j], b);
          assert j < |FirstSeen(rest)|;
        }
      }
    }
  }

  lemma FirstInRest(values: seq<string>, v: string, a: nat)
    requires values != [] && v in values[..|values| - 1] && FirstAt(values, v, a)
    ensures FirstAt(values[..|values| - 1], v, a)
  {
    var i :| 0 <= i < |values| - 1 && values[i] == v;
    assert a <= i;
  }

  /** The payload of the last item with this id. */
  function LastPayload(items: seq<Item>, id: string): Option<string> {
    if items == [] then None
    else if HasId(items[|items| - 1]) && items[|items| - 1].id.value == id then Some(items[|items| - 1].payload)
    else LastPayload(items[..|items| - 1], id)
  }

  /** It is what its name says: the payload of an item with this id after which no other one has it. */
  lemma {:induction false} LastPayloadMeaning(items: seq<Item>, id: string)
    ensures var found := LastPayload(items, id);
            && (found.None? <==> forall i :: 0 <= i < |items| ==> !Has(items[i], id))
            && (found.Some? ==> exists i: nat :: LastAt(items, id, i) && items[i].payload == found.value)
  {
    if items != [] {
      var n := |items| - 1;
      LastPayloadMeaning(items[..n], id);
      if Has(items[n], id) {
        assert LastAt(items, id, n);
      } else if LastPayload(items[..n], id).Some? {
        var i: nat :| LastAt(items[..n], id, i) && items[..n][i].payload == LastPayload(items[..n], id).value;
        LastLater(items, id, i);
      } else {
        forall i | 0 <= i < |items| ensures !Has(items[i], id) { assert i < n ==> items[i] == items[..n][i]; }
      }
    }
  }

  predicate Has(x: Item, id: string) { HasId(x) && x.id.value == id }

  lemma LastLater(items: seq<Item>, id: string, i: nat)
    requires items != [] && !Has(items[|items| - 1], id) && LastAt(items[..|items| - 1], id, i)
    ensures LastAt(items, id, i) && items[i] == items[..|items| - 1][i]
  {
    hide Has;
    forall j | i < j < |items| ensures !Has(items[j], id) { assert j < |items| - 1 ==> items[j] == items[..|items| - 1][j]; }
  }

  ghost predicate LastAt(items: seq<Item>, id: string, i: nat) {
    i < |items| && Has(items[i], id) && forall j :: i < j < |items| ==> !Has(items[j], id)
  }

  /** What the dictionary of messages says after `items`: `order` is its insertion order. */
  ghost predicate Tallied(order: seq<string>, byId: map<string, string>, duplicates: nat, rejected: nat, items: seq<Item>) {
    && order == FirstSeen(Ids(items))
    && (forall id :: id in byId <==> id in order)
    && (forall id :: id in byId ==> LastPayload(items, id) == Some(byId[id]))
    && |order| + duplicates + rejected == |items| && rejected == |items| - |Ids(items)|
  }

  lemma ItemAppended(items: seq<Item>, x: Item)
    ensures Ids(items + [x]) == if HasId(x) then Ids(items) + [x.id.value] else Ids(items)
    ensures HasId(x) ==> FirstSeen(Ids(items + [x])) ==
                         if x.id.value in FirstSeen(Ids(items)) then FirstSeen(Ids(items))
                         else FirstSeen(Ids(items)) + [x.id.value]
    ensures forall id :: LastPayload(items + [x], id) ==
                         if HasId(x) && id == x.id.value then Some(x.payload) else LastPayload(items, id)
  {
    assert (items + [x])[..|items|] == items;
    if HasId(x) {
      assert (Ids(items) + [x.id.value])[..|Ids(items)|] == Ids(items);
    }
  }

  lemma TallyOne(order: seq<string>, byId: map<string, string>, duplicates: nat, rejected: nat, items: seq<Item>, x: Item)
    requires Tallied(order, byId, duplicates, rejected, items)
    ensures HasId(x) && x.id.value in byId ==>
              Tallied(order, byId[x.id.value := x.payload], duplicates + 1, rejected, items + [x])
    ensures HasId(x) && x.id.value !in byId ==>
              Tallied(order + [x.id.value], byId[x.id.value := x.payload], duplicates, rejected, items + [x])
    ensures !HasId(x) ==> Tallied(order, byId, duplicates, rejected + 1, items + [x])
  {
    hide Ids, FirstSeen, LastPayload;
    ItemAppended(items, x);
  }

  const NON_OBJECT := "non_object_message"
  const WITHOUT_ID := "message_without_id"
  const TOTAL_CHANGED := "total_changed_during_pagination"

  ghost predicate HasNonObject(items: seq<Item>) { exists i :: 0 <= i < |items| && items[i].NotObject? }

  ghost predicate HasNameless(items: seq<Item>) { exists i :: 0 <= i < |items| && items[i].Object? && !HasId(items[i]) }

  /** The reasons that the page loop has collected. */
  ghost predicate ReasonsSay(reasons: seq<string>, items: seq<Item>, changed: bool) {
    && (NON_OBJECT in reasons <==> HasNonObject(items))
    && (WITHOUT_ID in reasons <==> HasNameless(items))
    && (TOTAL_CHANGED in reasons <==> changed)
    && forall r :: r in reasons ==> r == NON_OBJECT || r == WITHOUT_ID || r == TOTAL_CHANGED
  }

  lemma ReasonAdded(reasons: seq<string>, items: seq<Item>, changed: bool, x: Item)
    requires ReasonsSay(reasons, items, changed)
    ensures x.NotObject? ==> ReasonsSay(reasons + [NON_OBJECT], items + [x], changed)
    ensures x.Object? && !HasId(x) ==> ReasonsSay(reasons + [WITHOUT_ID], items + [x], changed)
    ensures HasId(x) ==> ReasonsSay(reasons, items + [x], changed)
    ensures ReasonsSay(reasons + [TOTAL_CHANGED], items, true)
  {
    var next := items + [x];
    assert forall i :: 0 <= i < |items| ==> next[i] == items[i];
    assert next[|items|] == x;
    assert HasNonObject(next) <==> HasNonObject(items) || x.NotObject?;
    assert HasNameless(next) <==> HasNameless(items) || (x.Object? && !HasId(x));
    assert NON_OBJECT[0] == 'n' && WITHOUT_ID[0] == 'm' && TOTAL_CHANGED[0] == 't';
  }

  /** The message loop of one page. */
  method TallyPage(data: seq<Item>, order: seq<string>, byId: map<string, string>, duplicates: nat, reasons: seq<string>,
                   ghost rejected: nat, ghost items: seq<Item>, ghost changed: bool)
    returns (order': seq<string>, byId': map<string, string>, duplicates': nat, reasons': seq<string>, ghost rejected': nat)
    requires Tallied(order, byId, duplicates, rejected, items) && ReasonsSay(reasons, items, changed)
    ensures Tallied(order', byId', duplicates', rejected', items + data) && ReasonsSay(reasons', items + data, changed)
    ensures rejected' >= rejected && (reasons' == reasons <==> rejected' == rejected)
    ensures reasons' != [] <==> reasons != [] || rejected' > rejected
  {
    hide ReasonsSay, Tallied;
    order', byId', duplicates', reasons', rejected' := order, byId, duplicates, reasons, rejected;
    assert items + data[..0] == items;
    for i := 0 to |data|
      invariant Tallied(order', byId', duplicates', rejected', items + data[..i])
      invariant ReasonsSay(reasons', items + data[..i], changed)
      invariant rejected' >= rejected && |reasons'| == |reasons| + rejected' - rejected
      invariant rejected' == rejected ==> reasons' == reasons
    {
      var x := data[i];
      TallyOne(order', byId', duplicates', rejected', items + data[..i], x);
      ReasonAdded(reasons', items + data[..i], changed, x);
      assert items + data[..i] + [x] == items + data[..i + 1];
      if x.NotObject? {
        reasons', rejected' := reasons' + [NON_OBJECT], rejected' + 1;
      } else if x.id.None? || Strip(x.id.value) == "" {
        reasons', rejected' := reasons' + [WITHOUT_ID], rejected' + 1;
      } else {
        if x.id.value in byId' {
          duplicates' := duplicates' + 1;
        } else {
          order' := order' + [x.id.value];
        }
        byId' := byId'[x.id.value := x.payload];
      }
    }
    assert data[..|data|] == data;
  }

  // ---- A run over responses ------------------------------------------------------------------------------

  /** The first `n` responses are pages 1 to `n`, and each of them before the last asks for more. */
  ghost predicate Read(responses: seq<Answer>, n: nat) {
    && n <= |responses|
    && (forall i :: 0 <= i < n ==> ValidPage(responses[i], i + 1))
    && (forall i :: 0 <= i < n - 1 ==> i + 1 < responses[i].lastPage)
  }

  /** The loop ends after exactly `n` pages. */
  ghost predicate Finished(responses: seq<Answer>, n: nat) {
    n >= 1 && Read(responses, n) && responses[n - 1].lastPage == n
  }

  function AllItems(responses: seq<Answer>, n: nat): seq<Item>
    requires n <= |responses|
  {
    if n == 0 then []
    else AllItems(responses, n - 1) + if responses[n - 1].Page? then responses[n - 1].data else []
  }

  ghost predicate SameTotals(responses: seq<Answer>, n: nat)
    requires Read(responses, n)
  {
    forall i, j :: 0 <= i < n && 0 <= j < n ==> responses[i].total == responses[j].total
  }

  /** Why a history is not complete. */
  ghost predicate ReasonsExact(h: History, lastMessage: Option<string>, responses: seq<Answer>)
    requires Finished(responses, h.pageCount)
  {
    var items := AllItems(responses, h.pageCount);
    var named := lastMessage.Some? && lastMessage.value != "";
    && (TOTAL_CHANGED in h.reasons <==> !SameTotals(responses, h.pageCount))
    && (NON_OBJECT in h.reasons <==> HasNonObject(items)) && (WITHOUT_ID in h.reasons <==> HasNameless(items))
    && (LAST_MISSING in h.reasons <==> named && lastMessage.value !in Ids(items))
    && (NO_MESSAGES in h.reasons <==> !named && h.total != 0 && h.messages == [])
    && (MISMATCH in h.reasons <==> h.total != |h.messages|)
    && (forall i, j :: 0 <= i < j < |h.reasons| ==> h.reasons[i] != h.reasons[j])
  }

  const LAST_MISSING := "last_message_id_missing"
  const NO_MESSAGES := "reported_total_without_messages"
  const MISMATCH := "total_unique_count_mismatch"

  /** What a history says of the responses that it was made of. */
  ghost predicate Accounts(h: History, lastMessage: Option<string>, responses: seq<Answer>) {
    && Finished(responses, h.pageCount)
    && var items := AllItems(responses, h.pageCount);
       var rejected := |items| - |h.messages| - h.duplicates;
       && h.total == responses[h.pageCount - 1].total
       && |h.messages| == |FirstSeen(Ids(items))|
       && (forall i :: 0 <= i < |h.messages| ==>
             h.messages[i].id == FirstSeen(Ids(items))[i] && Some(h.messages[i].payload) == LastPayload(items, h.messages[i].id))
       && rejected == |items| - |Ids(items)| && rejected >= 0
       && (h.complete <==> h.reasons == [])
       && (h.complete <==>
             && SameTotals(responses, h.pageCount) && h.total == |h.messages| && rejected == 0
             && (lastMessage.Some? && lastMessage.value != "" ==> lastMessage.value in Ids(items)))
  }

  /** What the loop knows before it asks for page `n + 1`. */
  ghost predicate Looping(responses: seq<Answer>, n: nat, lastPage: int, total: int, changed: bool) {
    && Read(responses, n) && n <= lastPage
    && (n == 0 ==> lastPage == 1 && total == 0 && !changed)
    && (n > 0 ==> lastPage == responses[n - 1].lastPage && total == responses[n - 1].total)
    && (changed <==> !SameTotals(responses, n))
  }

  lemma TurnReads(responses: seq<Answer>, n: nat, lastPage: int, total: int, changed: bool)
    requires Looping(responses, n, lastPage, total, changed) && n < lastPage && n < |responses|
    ensures ValidPage(responses[n], n + 1) ==>
              responses[n].Page? &&
              Looping(responses, n + 1, responses[n].lastPage, responses[n].total,
                      changed || (n > 0 && responses[n].total != total))
  {
    if ValidPage(responses[n], n + 1) {
      assert Read(responses, n + 1);
      if changed {
        var i, j :| 0 <= i < n && 0 <= j < n && responses[i].total != responses[j].total;
        assert !SameTotals(responses, n + 1);
      } else if n > 0 && responses[n].total != total {
        assert responses[n - 1].total != responses[n].total;
      }
    }
  }

  /** Only the number of pages at which the loop ends can be the finished one. */
  lemma FinishedOnce(responses: seq<Answer>, n: nat, m: nat)
    requires Finished(responses, m) && Read(responses, n)
    ensures n <= m
    ensures n < m ==> ValidPage(responses[n], n + 1) && (n > 0 ==> responses[n - 1].lastPage > n)
  {
  }

  ghost predicate Ends(responses: seq<Answer>) { exists n: nat :: Finished(responses, n) }

  lemma NothingSeen(values: seq<string>)
    ensures FirstSeen(values) == [] <==> values == []
  {
    if values != [] { assert values[0] in FirstSeen(values); }
  }

  /** The checks after the loop. */
  function Summarize(lastMessage: Option<string>, order: seq<string>, byId: map<string, string>, total: int, pageCount: nat,
                     duplicates: nat, reasons: seq<string>): (h: History)
    requires forall id :: id in order ==> id in byId
    ensures h.complete <==> h.reasons == []
  {
    var messages := seq(|order|, i requires 0 <= i < |order| => assert order[i] in order; Message(order[i], byId[order[i]]));
    var late :=
      if lastMessage.Some? && lastMessage.value != "" then
        if lastMessage.value !in byId then [LAST_MISSING] else []
      else if total != 0 && messages == [] then [NO_MESSAGES] else [];
    var last := if total != |messages| then [MISMATCH] else [];
    var all := reasons + late + last;
    NothingSeen(all);
    History(messages, pageCount, total, duplicates, all == [], FirstSeen(all))
  }

  lemma SummaryAccounts(lastMessage: Option<string>, responses: seq<Answer>, order: seq<string>, byId: map<string, string>,
                        total: int, pageCount: nat, duplicates: nat, reasons: seq<string>, rejected: nat, changed: bool)
    requires pageCount >= 1 && Looping(responses, pageCount, pageCount, total, changed)
    requires Tallied(order, byId, duplicates, rejected, AllItems(responses, pageCount))
    requires reasons == [] <==> !changed && rejected == 0
    ensures Ends(responses)
    ensures Accounts(Summarize(lastMessage, order, byId, total, pageCount, duplicates, reasons), lastMessage, responses)
    ensures Finished(responses, pageCount)
  {
    hide Ids, FirstSeen, LastPayload, AllItems, ValidPage, SameTotals;
    assert Finished(responses, pageCount);
    var h := Summarize(lastMessage, order, byId, total, pageCount, duplicates, reasons);
    assert |h.messages| == |order|;
  }

  lemma SummaryPages(lastMessage: Option<string>, order: seq<string>, byId: map<string, string>, total: int, pageCount: nat,
                     duplicates: nat, reasons: seq<string>)
    requires forall id :: id in order ==> id in byId
    ensures Summarize(lastMessage, order, byId, total, pageCount, duplicates, reasons).pageCount == pageCount
  {
  }

  lemma SummaryExplains(lastMessage: Option<string>, responses: seq<Answer>, order: seq<string>, byId: map<string, string>,
                        total: int, pageCount: nat, duplicates: nat, reasons: seq<string>, rejected: nat, changed: bool)
    requires pageCount >= 1 && Looping(responses, pageCount, pageCount, total, changed) && Finished(responses, pageCount)
    requires Tallied(order, byId, duplicates, rejected, AllItems(responses, pageCount))
    requires ReasonsSay(reasons, AllItems(responses, pageCount), changed)
    ensures ReasonsExact(Summarize(lastMessage, order, byId, total, pageCount, duplicates, reasons), lastMessage, responses)
  {
    hide Ids, LastPayload, AllItems, ValidPage, SameTotals, HasNonObject, HasNameless, FirstSeen;
    var h := Summarize(lastMessage, order, byId, total, pageCount, duplicates, reasons);
    var named := lastMessage.Some? && lastMessage.value != "";
    var late := if named then if lastMessage.value !in byId then [LAST_MISSING] else []
                else if total != 0 && h.messages == [] then [NO_MESSAGES] else [];
    var last := if total != |h.messages| then [MISMATCH] else [];
    var all := reasons + late + last;
    assert h.reasons == FirstSeen(all);
    FirstSeenMeaning(all);
    assert NON_OBJECT[0] == 'n' && WITHOUT_ID[0] == 'm' && LAST_MISSING[0] == 'l' && NO_MESSAGES[0] == 'r';
    assert TOTAL_CHANGED[6] == 'c' && MISMATCH[6] == 'u' && TOTAL_CHANGED[0] == MISMATCH[0] == 't';
    assert forall r :: r in all <==> r in reasons || r in late || r in last;
  }

  lemma NothingRead(responses: seq<Answer>)
    ensures Looping(responses, 0, 1, 0, false) && AllItems(responses, 0) == []
    ensures Tallied([], map[], 0, 0, []) && ReasonsSay([], [], false)
  {
  }

  lemma ItemsNext(responses: seq<Answer>, n: nat)
    requires n < |responses| && responses[n].Page?
    ensures AllItems(responses, n + 1) == AllItems(responses, n) + responses[n].data
  {
  }

  lemma OrderHasPayloads(order: seq<string>, byId: map<string, string>, duplicates: nat, rejected: nat, items: seq<Item>)
    requires Tallied(order, byId, duplicates, rejected, items)
    ensures forall id :: id in order ==> id in byId
  {
  }

  lemma LoopBounds(responses: seq<Answer>, n: nat, lastPage: int, total: int, changed: bool)
    requires Looping(responses, n, lastPage, total, changed)
    ensures n <= lastPage && n <= |responses| && (n == lastPage ==> n >= 1 && Finished(responses, n))
    ensures n == 0 ==> !changed
  {
  }

  /** `get_ticket_history`, once the ticket is there. `responses` are the answers to its page requests, in
      order; a run that ends reads finitely many. */
  method GetTicketHistory(lastMessage: Option<string>, responses: seq<Answer>) returns (result: Result<History, Error>)
    ensures result.Ok? <==> Ends(responses)
    ensures result.Ok? ==> Accounts(result.value, lastMessage, responses)
    ensures result.Ok? ==> Finished(responses, result.value.pageCount) && ReasonsExact(result.value, lastMessage, responses)
  {
    hide FirstSeen, LastPayload, Accounts, Summarize, Ends, ReasonsSay, ReasonsExact, Tallied, Looping, AllItems, Finished, Ids;
    var page, lastPage, total, pageCount, duplicates := 1, 1, 0, 0, 0;
    var order: seq<string>, byId: map<string, string>, reasons: seq<string> := [], map[], [];
    ghost var rejected, changed := 0, false;
    NothingRead(responses);
    while page <= lastPage
      invariant page == pageCount + 1 && page <= lastPage + 1 && pageCount <= |responses|
      invariant Looping(responses, pageCount, lastPage, total, changed)
      invariant Tallied(order, byId, duplicates, rejected, AllItems(responses, pageCount))
      invariant reasons == [] <==> !changed && rejected == 0
      invariant ReasonsSay(reasons, AllItems(responses, pageCount), changed)
      decreases |responses| - pageCount
    {
      LoopBounds(responses, pageCount, lastPage, total, changed);
      TurnStops(responses, pageCount, lastPage, total, changed);
      if pageCount == |responses| || responses[pageCount].Failed? {
        return Err(ClientError);
      }
      var answer := responses[pageCount];
      if !ValidPage(answer, page) {
        return Err(ResponseError);
      }
      TurnReads(responses, pageCount, lastPage, total, changed);
      ReasonAdded(reasons, AllItems(responses, pageCount), changed, NotObject);
      if pageCount > 0 && answer.total != total {
        reasons, changed := reasons + [TOTAL_CHANGED], true;
      }
      ItemsNext(responses, pageCount);
      total, lastPage := answer.total, answer.lastPage;
      order, byId, duplicates, reasons, rejected :=
        TallyPage(answer.data, order, byId, duplicates, reasons, rejected, AllItems(responses, pageCount), changed);
      pageCount := pageCount + 1;
      page := page + 1;
    }
    LoopBounds(responses, pageCount, lastPage, total, changed);
    OrderHasPayloads(order, byId, duplicates, rejected, AllItems(responses, pageCount));
    result := Ok(Summarize(lastMessage, order, byId, total, pageCount, duplicates, reasons));
    SummaryAccounts(lastMessage, responses, order, byId, total, pageCount, duplicates, reasons, rejected, changed);
    SummaryExplains(lastMessage, responses, order, byId, total, pageCount, duplicates, reasons, rejected, changed);
    SummaryPages(lastMessage, order, byId, total, pageCount, duplicates, reasons);
  }

  /** A response that is missing or refused leaves no way to finish. */
  lemma TurnStops(responses: seq<Answer>, n: nat, lastPage: int, total: int, changed: bool)
    requires Looping(responses, n, lastPage, total, changed) && n < lastPage
    ensures n == |responses| || !ValidPage(responses[n], n + 1) ==> !Ends(responses)
  {
    if m: nat :| Finished(responses, m) {
      FinishedOnce(responses, n, m);
    }
  }
}
