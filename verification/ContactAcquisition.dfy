/** Acquisition of a complete DigiSac contacts snapshot: `src/core/digisac_contact_backfill.py`. */
module ContactAcquisition {
  import opened Common
  import opened Contacts

  datatype Page = Page(contacts: seq<Contact>, total: int, limit: int, currentPage: int, lastPage: int)

  /** What one page request ends in: a page, an error that the client raises itself, or any other fault. */
  datatype Answer = Paged(page: Page) | ClientError | Fault

  datatype Acquired = Acquired(contacts: seq<Contact>, pageCount: nat, duplicates: nat, total: int)

  datatype Failure = InvalidArgument | ClientFailure | Provider | InvalidResponse

  function CeilDiv(a: int, b: int): int
    requires b > 0
  {
    (a + b - 1) / b
  }

  function Max(a: int, b: int): int { if a < b then b else a }

  /** `_validate_page`. */
  predicate ValidPage(p: Page, requested: int, expectedTotal: Option<int>) {
    && p.currentPage == requested
    && p.lastPage >= p.currentPage
    && p.total >= 0 && p.limit > 0 && p.lastPage > 0
    && p.lastPage == Max(1, CeilDiv(p.total, p.limit))
    && |p.contacts| <= p.limit
    && !(p.total == 0 && p.contacts != [])
    && (expectedTotal.Some? ==> p.total == expectedTotal.value)
    && !(p.total > 0 && p.contacts == [])
    && !(p.currentPage < p.lastPage && p.contacts == [])
  }

  /** Page `n` is acceptable, given the first page. */
  ghost predicate GoodPage(client: nat -> Answer, n: nat) {
    && client(1).Paged? && client(n).Paged?
    && ValidPage(client(n).page, n, if n == 1 then None else Some(client(1).page.total))
    && client(n).page.lastPage == client(1).page.lastPage
  }

  /** What makes page `n` of a run acceptable, in plain arithmetic: its last page is the one that its total and its
      limit need, and at least 1; it has no more contacts than its limit, and none exactly when there are none at
      all; and total and last page are those of the first page. */
  ghost predicate SoundPage(p: Page, n: int, first: Page) {
    && p.currentPage == n && 1 <= n <= p.lastPage && p.limit > 0
    && (p.total == 0 ==> p.lastPage == 1) && (p.total > 0 ==> (p.lastPage - 1) * p.limit < p.total <= p.lastPage * p.limit)
    && p.total >= 0 && |p.contacts| <= p.limit && (p.contacts == [] <==> p.total == 0)
    && p.total == first.total && p.lastPage == first.lastPage
  }

  lemma CeilDivMeaning(a: int, b: int)
    requires a > 0 && b > 0
    ensures var q := CeilDiv(a, b); q >= 1 && (q - 1) * b < a <= q * b
  {
    var q := CeilDiv(a, b);
    assert q * b <= a + b - 1 < q * b + b;
    assert (q - 1) * b == q * b - b;
  }

  lemma TimesKeepsOrder(q: int, r: int, b: int)
    requires b > 0
    ensures q <= r ==> q * b <= r * b
  {
  }

  lemma CeilDivExactly(a: int, b: int, q: int)
    requires a > 0 && b > 0
    ensures q == CeilDiv(a, b) <==> (q - 1) * b < a <= q * b
    ensures CeilDiv(a, b) >= 1
  {
    var r := CeilDiv(a, b);
    CeilDivMeaning(a, b);
    TimesKeepsOrder(q, r - 1, b);
    TimesKeepsOrder(r, q - 1, b);
  }

  lemma NoPages(b: int)
    requires b > 0
    ensures CeilDiv(0, b) == 0
  {
  }

  lemma GoodPageMeaning(client: nat -> Answer, n: nat)
    requires n >= 1 && client(1).Paged?
    ensures GoodPage(client, n) <==> client(n).Paged? && SoundPage(client(n).page, n, client(1).page)
  {
    if client(n).Paged? && client(n).page.limit > 0 {
      var p := client(n).page;
      if p.total > 0 { CeilDivExactly(p.total, p.limit, p.lastPage); }
      hide CeilDiv;
      NoPages(p.limit);
    }
  }

  /** How an answer that stops the run is reported. */
  predicate Reports(failure: Failure, answer: Answer) {
    match answer
    case ClientError => failure == ClientFailure
    case Fault => failure == Provider
    case Paged(_) => failure == InvalidResponse
  }

  /** The pages before `n` are acceptable, page `n` is not, and its answer is what is reported. */
  ghost predicate StopsAt(client: nat -> Answer, n: nat, failure: Failure) {
    n >= 1 && AllGood(client, n - 1) && !GoodPage(client, n) && Reports(failure, client(n))
  }

  /** The contacts of pages 1 to `n`, in order. */
  ghost function AllContacts(client: nat -> Answer, n: nat): seq<Contact>
  {
    if n == 0 then []
    else AllContacts(client, n - 1) + if client(n).Paged? then client(n).page.contacts else []
  }

  /** The duplicates of one id, in order. */
  function Group(all: seq<Contact>, id: string): (g: seq<Contact>)
    ensures forall c :: c in g ==> c in all && c.externalId == id
  {
    if all == [] then []
    else
      var rest, last := Group(all[..|all| - 1], id), all[|all| - 1];
      if last.externalId == id then rest + [last] else rest
  }

  ghost predicate Unique(ids: seq<string>) {
    forall i, j :: 0 <= i < j < |ids| ==> ids[i] != ids[j]
  }

  /** The dictionary of contacts by id, its insertion order and the duplicate counter, after `all`. */
  ghost predicate Collected(order: seq<string>, byId: map<string, Contact>, duplicates: nat, all: seq<Contact>) {
    && Unique(order)
    && (forall id :: id in order <==> id in byId)
    && Merged(byId, all)
    && |order| + duplicates == |all|
  }

  lemma GroupAppend(all: seq<Contact>, c: Contact, id: string)
    ensures Group(all + [c], id) == if c.externalId == id then Group(all, id) + [c] else Group(all, id)
  {
    assert (all + [c])[..|all|] == all;
  }

  ghost predicate Merged(byId: map<string, Contact>, all: seq<Contact>) {
    && (forall id :: id in byId <==> Group(all, id) != [])
    && (forall id :: id in byId && Group(all, id) != [] ==> byId[id] == MergeAll(Group(all, id)))
  }

  lemma MergedOne(byId: map<string, Contact>, all: seq<Contact>, c: Contact)
    requires Merged(byId, all)
    ensures Merged(byId[c.externalId := if c.externalId in byId then MergeDuplicate(byId[c.externalId], c) else c], all + [c])
  {
    var id := c.externalId;
    var g := Group(all, id);
    var next := byId[id := if id in byId then MergeDuplicate(byId[id], c) else c];
    assert (g + [c])[..|g|] == g;
    forall other
      ensures other in next <==> Group(all + [c], other) != []
      ensures other in next && Group(all + [c], other) != [] ==> next[other] == MergeAll(Group(all + [c], other))
    {
      GroupAppend(all, c, other);
    }
  }

  /** The contact loop of one page. */
  method CollectPage(page: seq<Contact>, order: seq<string>, byId: map<string, Contact>, duplicates: nat,
                     ghost all: seq<Contact>)
    returns (order': seq<string>, byId': map<string, Contact>, duplicates': nat)
    requires Collected(order, byId, duplicates, all)
    ensures Collected(order', byId', duplicates', all + page)
  {
    order', byId', duplicates' := order, byId, duplicates;
    assert all + page[..0] == all;
    for i := 0 to |page|
      invariant Collected(order', byId', duplicates', all + page[..i])
    {
      var c := page[i];
      MergedOne(byId', all + page[..i], c);
      assert all + page[..i] + [c] == all + page[..i + 1];
      if c.externalId in byId' {
        duplicates' := duplicates' + 1;
        byId' := byId'[c.externalId := MergeDuplicate(byId'[c.externalId], c)];
      } else {
        order' := order' + [c.externalId];
        byId' := byId'[c.externalId := c];
      }
    }
    assert page[..|page|] == page;
  }

  /** What a complete acquisition says about the pages. */
  ghost predicate Complete(client: nat -> Answer, a: Acquired)
    requires client(1).Paged?
  {
    var last := client(1).page.lastPage;
    && last >= 1 && (forall i :: 1 <= i <= last ==> GoodPage(client, i))
    && a.pageCount == last && a.total == client(1).page.total
    && var all := AllContacts(client, last);
       && (forall i, j :: 0 <= i < j < |a.contacts| ==> a.contacts[i].externalId != a.contacts[j].externalId)
       && (forall i :: 0 <= i < |a.contacts| ==>
             var g := Group(all, a.contacts[i].externalId); g != [] && a.contacts[i] == MergeAll(g))
       && (forall id :: Group(all, id) != [] ==> exists i :: 0 <= i < |a.contacts| && a.contacts[i].externalId == id)
       && |a.contacts| + a.duplicates == |all|
  }

  lemma {:induction false} MergeAllId(all: seq<Contact>, id: string)
    requires Group(all, id) != []
    ensures MergeAll(Group(all, id)).externalId == id
  {
    MergeAllMeaning(Group(all, id));
  }

  method Values(order: seq<string>, byId: map<string, Contact>, ghost duplicates: nat, ghost all: seq<Contact>)
    returns (contacts: seq<Contact>)
    requires Collected(order, byId, duplicates, all)
    ensures |contacts| == |order|
    ensures forall i :: 0 <= i < |order| ==> contacts[i] == byId[order[i]] && contacts[i].externalId == order[i]
  {
    forall id | id in byId ensures byId[id].externalId == id { MergeAllId(all, id); }
    contacts := seq(|order|, i requires 0 <= i < |order| => assert order[i] in order; byId[order[i]]);
  }

  /** What the loop of `Acquire` knows before it asks for page `requested`. */
  ghost predicate Expected(client: nat -> Answer, requested: nat, expectedTotal: Option<int>, expectedLast: int) {
    && requested >= 1
    && (requested == 1 ==> expectedTotal.None?)
    && (requested > 1 ==>
          && client(1).Paged? && expectedTotal == Some(client(1).page.total)
          && expectedLast == client(1).page.lastPage && requested <= expectedLast)
  }

  ghost predicate AllGood(client: nat -> Answer, n: int) {
    forall i :: 1 <= i <= n ==> GoodPage(client, i)
  }

  /** Every page that the first one announces is acceptable. */
  ghost predicate Acquirable(client: nat -> Answer) {
    client(1).Paged? && AllGood(client, Max(1, client(1).page.lastPage))
  }

  /** The checks of one turn are exactly those that make its page acceptable. */
  lemma TurnAccepts(client: nat -> Answer, requested: nat, expectedTotal: Option<int>, expectedLast: int)
    requires Expected(client, requested, expectedTotal, expectedLast)
    ensures GoodPage(client, requested) <==>
              && client(requested).Paged? && ValidPage(client(requested).page, requested, expectedTotal)
              && (expectedTotal.Some? ==> client(requested).page.lastPage == expectedLast)
    ensures Acquirable(client) ==> GoodPage(client, requested)
  {
  }

  lemma TurnsAdd(client: nat -> Answer, requested: nat)
    requires requested >= 1 && AllGood(client, requested - 1) && GoodPage(client, requested)
    ensures AllGood(client, requested)
    ensures client(requested).page.currentPage == requested && client(requested).page.lastPage == client(1).page.lastPage
    ensures requested <= client(1).page.lastPage
    ensures AllContacts(client, requested) == AllContacts(client, requested - 1) + client(requested).page.contacts
  {
  }

  lemma TurnsEnd(client: nat -> Answer, order: seq<string>, byId: map<string, Contact>, duplicates: nat, contacts: seq<Contact>)
    requires client(1).Paged? && client(1).page.lastPage >= 1 && AllGood(client, client(1).page.lastPage)
    requires Collected(order, byId, duplicates, AllContacts(client, client(1).page.lastPage))
    requires |contacts| == |order|
    requires forall i :: 0 <= i < |order| ==>
               && order[i] in byId && contacts[i] == byId[order[i]] && contacts[i].externalId == order[i]
    ensures Complete(client, Acquired(contacts, client(1).page.lastPage, duplicates, client(1).page.total))
  {
    var all := AllContacts(client, client(1).page.lastPage);
    forall id | Group(all, id) != [] ensures exists i :: 0 <= i < |contacts| && contacts[i].externalId == id {
      assert id in order;
      var i :| 0 <= i < |order| && order[i] == id;
      assert contacts[i].externalId == id;
    }
  }

  lemma Stops(client: nat -> Answer, n: nat)
    requires n >= 1 && AllGood(client, n - 1)
    ensures !GoodPage(client, n) ==>
              StopsAt(client, n, match client(n) case ClientError => ClientFailure case Fault => Provider case Paged(_) => InvalidResponse)
  {
  }

  lemma AllSound(client: nat -> Answer, last: nat)
    requires last >= 1 && AllGood(client, last)
    ensures forall n :: 1 <= n <= last ==> client(1).Paged? && client(n).Paged? && SoundPage(client(n).page, n, client(1).page)
  {
    assert GoodPage(client, 1);
    forall n | 1 <= n <= last ensures client(n).Paged? && SoundPage(client(n).page, n, client(1).page) {
      assert GoodPage(client, n);
      GoodPageMeaning(client, n);
    }
  }

  /** `acquire_contact_backfill`. It succeeds exactly when every page from 1 to the last page that the
      first one announces is acceptable, and then it accounts for every contact that was received. */
  method Acquire(client: nat -> Answer, pageSize: int) returns (result: Result<Acquired, Failure>)
    ensures pageSize <= 0 ==> result == Err(InvalidArgument)
    ensures pageSize > 0 ==> (result.Ok? <==> Acquirable(client))
    ensures result.Ok? ==> client(1).Paged? && Complete(client, result.value)
    ensures result.Ok? ==> forall n :: 1 <= n <= result.value.pageCount ==>
              client(n).Paged? && SoundPage(client(n).page, n, client(1).page)
    ensures pageSize > 0 && result.Err? ==> exists n :: StopsAt(client, n, result.error)
  {
    if pageSize <= 0 {
      return Err(InvalidArgument);
    }
    hide Collected, Complete, AllGood, Max, SoundPage, ValidPage, StopsAt;
    var requested := 1;
    var order, byId, duplicates := [], map[], 0;
    var expectedTotal: Option<int> := None;
    var expectedLast := 0;
    while true
      invariant Expected(client, requested, expectedTotal, expectedLast)
      invariant AllGood(client, requested - 1)
      invariant Collected(order, byId, duplicates, AllContacts(client, requested - 1))
      decreases if requested == 1 then 1 else 0, expectedLast - requested
    {
      TurnAccepts(client, requested, expectedTotal, expectedLast);
      var answer := client(requested);
      Stops(client, requested);
      if answer.ClientError? {
        return Err(ClientFailure);
      }
      if answer.Fault? {
        return Err(Provider);
      }
      var page := answer.page;
      if !ValidPage(page, requested, expectedTotal) {
        return Err(InvalidResponse);
      }
      if expectedTotal.None? {
        expectedTotal, expectedLast := Some(page.total), page.lastPage;
      } else if page.lastPage != expectedLast {
        return Err(InvalidResponse);
      }
      TurnsAdd(client, requested);
      order, byId, duplicates := CollectPage(page.contacts, order, byId, duplicates, AllContacts(client, requested - 1));
      if page.currentPage == page.lastPage {
        break;
      }
      requested := requested + 1;
    }
    var contacts := Values(order, byId, duplicates, AllContacts(client, requested));
    TurnsEnd(client, order, byId, duplicates, contacts);
    AllSound(client, requested);
    result := Ok(Acquired(contacts, requested, duplicates, expectedTotal.value));
  }
}
