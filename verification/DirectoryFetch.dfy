/** Acquisition of a complete directory snapshot: `fetch_snapshot` of `src/core/acessorias_directory.py`. */
module DirectoryFetch {
  import opened Common
  import opened Directory

  /** What one request ends in: a list of raw records, another value, or an error with its category. */
  datatype Answer<R> = Records(items: seq<R>) | NotAList | Failed(category: string)

  /** The answers to the page requests, and the parser of company records. */
  datatype Source<!R> = Source(page: nat -> Answer<R>, parse: R -> Result<Company, string>)

  /** Page `n` goes on: it has records, and all of them parse. */
  ghost predicate Goes<R(!new)>(src: Source<R>, n: nat) {
    src.page(n).Records? && src.page(n).items != [] && forall x :: x in src.page(n).items ==> src.parse(x).Ok?
  }

  function Parsed<R>(items: seq<R>, parse: R -> Result<Company, string>): (cs: seq<Company>)
    ensures |cs| <= |items|
  {
    if items == [] then []
    else
      var last := parse(items[|items| - 1]);
      Parsed(items[..|items| - 1], parse) + if last.Ok? then [last.value] else []
  }

  /** The companies of pages 1 to `n`, in order. */
  function Companies<R>(src: Source<R>, n: nat): seq<Company> {
    if n == 0 then []
    else Companies(src, n - 1) + if src.page(n).Records? then Parsed(src.page(n).items, src.parse) else []
  }

  /** Pages 1 to `n` go on, and the next one is empty. */
  ghost predicate Complete<R(!new)>(src: Source<R>, n: nat) {
    && (forall i :: 1 <= i <= n ==> Goes(src, i))
    && src.page(n + 1) == Records([])
  }

  /** Reading to the first empty page, within the page limit, gives a valid snapshot. */
  ghost predicate Fetchable<R(!new)>(src: Source<R>, departments: seq<Department>, limit: nat, n: nat) {
    n < limit && Complete(src, n) && Validate(Snapshot(departments, Companies(src, n))).None?
  }

  ghost predicate NeverFetchable<R(!new)>(src: Source<R>, departments: seq<Department>, limit: nat) {
    forall n: nat :: !Fetchable(src, departments, limit, n)
  }

  // ---- Why the loop may stop early -----------------------------------------------------------------------

  lemma {:induction false} CompaniesGrow<R>(src: Source<R>, n: nat, m: nat)
    requires n <= m
    ensures Companies(src, n) <= Companies(src, m)
    decreases m
  {
    if n < m { CompaniesGrow(src, n, m - 1); }
  }

  lemma DistinctPrefix(a: seq<Company>, b: seq<Company>)
    requires a <= b && Distinct(CompanyKeys(b))
    ensures Distinct(CompanyKeys(a))
  {
    assert CompanyKeys(a) == CompanyKeys(b)[..|a|];
  }

  /** A snapshot that ends at or after page `n` has the companies read so far. */
  lemma EndsLater<R(!new)>(src: Source<R>, n: nat, m: nat)
    requires (forall i :: 1 <= i <= n ==> Goes(src, i)) && Complete(src, m)
    ensures m >= n
    ensures m > n ==> Goes(src, n + 1)
  {
    assert m < n ==> Goes(src, m + 1);
  }

  /** If the companies read so far repeat an id, no later end gives a valid snapshot. */
  lemma RepeatedIsInvalid<R(!new)>(src: Source<R>, departments: seq<Department>, limit: nat, seen: seq<Company>, n: nat, m: nat)
    requires !Distinct(CompanyKeys(seen)) && seen <= Companies(src, n) && n <= m
    ensures !Fetchable(src, departments, limit, m)
  {
    CompaniesGrow(src, n, m);
    if Distinct(CompanyKeys(Companies(src, m))) {
      DistinctPrefix(seen, Companies(src, m));
    }
  }

  lemma {:induction false} ParsedHas<R>(items: seq<R>, parse: R -> Result<Company, string>, x: R)
    requires x in items && parse(x).Ok?
    ensures parse(x).value in Parsed(items, parse)
  {
    if x != items[|items| - 1] {
      assert x in items[..|items| - 1];
      ParsedHas(items[..|items| - 1], parse, x);
    }
  }

  lemma {:induction false} CompaniesHave<R>(src: Source<R>, i: nat, n: nat, c: Company)
    requires 1 <= i <= n && src.page(i).Records? && c in Parsed(src.page(i).items, src.parse)
    ensures c in Companies(src, n)
    decreases n
  {
    if i < n { CompaniesHave(src, i, n - 1, c); }
  }

  ghost predicate SeenIds(seen: set<string>, companies: seq<Company>) {
    forall id :: id in seen <==> exists c :: c in companies && c.externalId == id
  }

  lemma DistinctAppend(companies: seq<Company>, c: Company, seen: set<string>)
    requires Distinct(CompanyKeys(companies)) && SeenIds(seen, companies)
    ensures Distinct(CompanyKeys(companies + [c])) <==> c.externalId !in seen
    ensures SeenIds(seen + {c.externalId}, companies + [c])
  {
    var keys := CompanyKeys(companies + [c]);
    assert keys == CompanyKeys(companies) + [c.externalId];
    if c.externalId in seen {
      var d :| d in companies && d.externalId == c.externalId;
      var i :| 0 <= i < |companies| && companies[i] == d;
      assert keys[i] == keys[|companies|];
    } else {
      forall i | 0 <= i < |companies| ensures keys[i] != c.externalId {
        assert companies[i] in companies;
      }
    }
  }

  /** Record `i` is the first that is refused: it does not parse, or its id was seen. */
  ghost predicate BadRecord<R(!new)>(src: Source<R>, items: seq<R>, before: seq<Company>, i: nat, category: string) {
    && i < |items| && (forall j :: 0 <= j < i ==> src.parse(items[j]).Ok?)
    && match src.parse(items[i])
       case Err(error) => category == error
       case Ok(c) =>
         && category == "pagination_loop"
         && exists d :: d in before + Parsed(items[..i], src.parse) && d.externalId == c.externalId
  }

  ghost predicate SomeBadRecord<R(!new)>(src: Source<R>, items: seq<R>, before: seq<Company>, category: string) {
    exists i :: BadRecord(src, items, before, i, category)
  }

  /** The record loop of one page. It ends in the companies so far, or in the error of the first record that
      does not parse or whose id was seen. */
  method ReadRecords<R(!new)>(src: Source<R>, items: seq<R>, companies: seq<Company>, seen: set<string>)
    returns (result: Result<(seq<Company>, set<string>), string>)
    requires Distinct(CompanyKeys(companies)) && SeenIds(seen, companies)
    ensures result.Ok? ==>
              && result.value.0 == companies + Parsed(items, src.parse)
              && Distinct(CompanyKeys(result.value.0)) && SeenIds(result.value.1, result.value.0)
              && forall x :: x in items ==> src.parse(x).Ok?
    ensures result.Err? ==>
              || (exists x :: x in items && src.parse(x).Err?)
              || !Distinct(CompanyKeys(companies + Parsed(items, src.parse)))
    ensures result.Err? ==> SomeBadRecord(src, items, companies, result.error)
  {
    hide Distinct, SeenIds;
    var all, ids := companies, seen;
    assert companies + Parsed(items[..0], src.parse) == companies;
    for i := 0 to |items|
      invariant all == companies + Parsed(items[..i], src.parse)
      invariant Distinct(CompanyKeys(all)) && SeenIds(ids, all)
      invariant forall j :: 0 <= j < i ==> src.parse(items[j]).Ok?
    {
      var company := src.parse(items[i]);
      if company.Err? {
        assert BadRecord(src, items, companies, i, company.error);
        return Err(company.error);
      }
      var c := company.value;
      DistinctAppend(all, c, ids);
      ParsedNext(items, src.parse, i, companies);
      if c.externalId in ids {
        RepeatedStays(items, src.parse, i + 1, companies);
        SeenBefore(ids, all, c.externalId);
        assert BadRecord(src, items, companies, i, "pagination_loop");
        return Err("pagination_loop");
      }
      ids := ids + {c.externalId};
      all := all + [c];
    }
    assert items[..|items|] == items;
    result := Ok((all, ids));
  }

  lemma SeenBefore(seen: set<string>, companies: seq<Company>, id: string)
    requires SeenIds(seen, companies) && id in seen
    ensures exists c :: c in companies && c.externalId == id
  {
  }

  lemma ParsedNext<R>(items: seq<R>, parse: R -> Result<Company, string>, i: nat, companies: seq<Company>)
    requires i < |items| && parse(items[i]).Ok?
    ensures companies + Parsed(items[..i + 1], parse) == companies + Parsed(items[..i], parse) + [parse(items[i]).value]
  {
    assert items[..i + 1][..i] == items[..i];
  }

  lemma RepeatedStays<R>(items: seq<R>, parse: R -> Result<Company, string>, n: nat, companies: seq<Company>)
    requires n <= |items| && !Distinct(CompanyKeys(companies + Parsed(items[..n], parse)))
    ensures !Distinct(CompanyKeys(companies + Parsed(items, parse)))
  {
    ParsedGrow(items, parse, n);
    if Distinct(CompanyKeys(companies + Parsed(items, parse))) {
      DistinctPrefix(companies + Parsed(items[..n], parse), companies + Parsed(items, parse));
    }
  }

  lemma {:induction false} ParsedGrow<R>(items: seq<R>, parse: R -> Result<Company, string>, n: nat)
    requires n <= |items|
    ensures Parsed(items[..n], parse) <= Parsed(items, parse)
    decreases |items|
  {
    if n == |items| {
      assert items[..n] == items;
    } else {
      var rest := items[..|items| - 1];
      assert rest[..n] == items[..n];
      ParsedGrow(rest, parse, n);
    }
  }

  /** A page that comes again brings companies again. */
  lemma SamePageRepeats<R(!new)>(src: Source<R>, departments: seq<Department>, limit: nat, i: nat, n: nat, m: nat)
    requires 1 <= i <= n && Goes(src, i) && src.page(n + 1) == src.page(i) && m >= n + 1
    ensures !Fetchable(src, departments, limit, m)
  {
    var x := src.page(i).items[0];
    var c := src.parse(x).value;
    ParsedHas(src.page(i).items, src.parse, x);
    CompaniesHave(src, i, n, c);
    var before, page := Companies(src, n), Parsed(src.page(n + 1).items, src.parse);
    var a :| 0 <= a < |before| && before[a] == c;
    var b :| 0 <= b < |page| && page[b] == c;
    var all := Companies(src, n + 1);
    assert all == before + page;
    assert CompanyKeys(all)[a] == CompanyKeys(all)[|before| + b];
    RepeatedIsInvalid(src, departments, limit, all, n + 1, m);
  }

  lemma BadRecordsEnd<R(!new)>(src: Source<R>, departments: seq<Department>, limit: nat, n: nat)
    requires (forall i :: 1 <= i <= n ==> Goes(src, i)) && src.page(n + 1).Records? && src.page(n + 1).items != []
    requires || (exists x :: x in src.page(n + 1).items && src.parse(x).Err?)
             || !Distinct(CompanyKeys(Companies(src, n + 1)))
    ensures NeverFetchable(src, departments, limit)
  {
    forall m: nat ensures !Fetchable(src, departments, limit, m) {
      if Fetchable(src, departments, limit, m) {
        EndsLater(src, n, m);
        assert m > n;
        if !Distinct(CompanyKeys(Companies(src, n + 1))) {
          RepeatedIsInvalid(src, departments, limit, Companies(src, n + 1), n + 1, m);
        }
      }
    }
  }

  lemma NotGoing<R(!new)>(src: Source<R>, departments: seq<Department>, limit: nat, n: nat)
    requires (forall i :: 1 <= i <= n ==> Goes(src, i)) && !src.page(n + 1).Records?
    ensures NeverFetchable(src, departments, limit)
  {
    forall m: nat ensures !Fetchable(src, departments, limit, m) {
      if Fetchable(src, departments, limit, m) { EndsLater(src, n, m); }
    }
  }

  lemma PageRepeats<R(!new)>(src: Source<R>, departments: seq<Department>, limit: nat, i: nat, n: nat)
    requires (forall j :: 1 <= j <= n ==> Goes(src, j)) && 1 <= i <= n && src.page(n + 1) == src.page(i)
    ensures NeverFetchable(src, departments, limit)
  {
    forall m: nat ensures !Fetchable(src, departments, limit, m) {
      if Fetchable(src, departments, limit, m) {
        EndsLater(src, n, m);
        SamePageRepeats(src, departments, limit, i, n, m);
      }
    }
  }

  lemma LimitReached<R(!new)>(src: Source<R>, departments: seq<Department>, n: nat)
    requires forall j :: 1 <= j <= n ==> Goes(src, j)
    ensures NeverFetchable(src, departments, n)
  {
    forall m: nat ensures !Fetchable(src, departments, n, m) {
      if Fetchable(src, departments, n, m) { EndsLater(src, n, m); }
    }
  }

  lemma EndInvalid<R(!new)>(src: Source<R>, departments: seq<Department>, limit: nat, n: nat)
    requires Complete(src, n) && Validate(Snapshot(departments, Companies(src, n))).Some?
    ensures NeverFetchable(src, departments, limit)
  {
    forall m: nat ensures !Fetchable(src, departments, limit, m) {
      if Fetchable(src, departments, limit, m) {
        EndsLater(src, n, m);
        EndsLater(src, m, n);
      }
    }
  }

  lemma DepartmentsRepeat<R(!new)>(src: Source<R>, departments: seq<Department>, limit: nat)
    requires !Distinct(DepartmentKeys(departments))
    ensures NeverFetchable(src, departments, limit)
  {
  }

  lemma NothingRead<R>(src: Source<R>)
    ensures Companies(src, 0) == [] && SeenIds({}, [])
  {
  }

  lemma PageRead<R>(src: Source<R>, n: nat)
    requires src.page(n + 1).Records?
    ensures Companies(src, n + 1) == Companies(src, n) + Parsed(src.page(n + 1).items, src.parse)
  {
  }

  ghost predicate HasUnknownParent(s: Snapshot) {
    exists c, id :: c in s.companies && id in c.departments && id !in DepartmentKeys(s.departments)
  }

  /** The checks after the loop: parents first, then `_validate_snapshot`. */
  method CheckSnapshot(s: Snapshot) returns (error: Option<string>)
    ensures error.Some? <==> Validate(s).Some?
    ensures error.Some? ==> if HasUnknownParent(s) then error.value == "invalid_parent" else Validate(s) == error
  {
    if exists c :: c in s.companies && !Parented(c, DepartmentKeys(s.departments)) {
      return Some("invalid_parent");
    }
    error := Validate(s);
  }

  /** Why reading stops after `n` pages that go on: the departments repeat, the next page is an error, no list or an
      earlier page, a record of it is refused, the limit is reached, or the snapshot that ends there is not valid. */
  ghost predicate StopsWith<R(!new)>(src: Source<R>, departments: seq<Department>, limit: nat, n: nat, category: string) {
    && (forall i :: 1 <= i <= n ==> Goes(src, i))
    && (|| (n == 0 && !Distinct(DepartmentKeys(departments)) && category == "invalid_payload")
        || src.page(n + 1) == Failed(category)
        || (src.page(n + 1).NotAList? && category == "invalid_payload")
        || ((exists i :: 1 <= i <= n && src.page(n + 1) == src.page(i)) && category == "pagination_loop")
        || (src.page(n + 1).Records? && SomeBadRecord(src, src.page(n + 1).items, Companies(src, n), category))
        || (n == limit && category == "pagination_limit")
        || (Complete(src, n)
            && var s := Snapshot(departments, Companies(src, n));
               if HasUnknownParent(s) then category == "invalid_parent" else Validate(s) == Some(category)))
  }

  /** The company part of `fetch_snapshot`. Its checks of repeated pages and repeated companies only stop it
      earlier: it succeeds exactly when reading to the first empty page, below the page limit, gives a valid
      snapshot, and that snapshot is its result. */
  method FetchCompanies<R(!new, ==)>(src: Source<R>, departments: seq<Department>, limit: nat)
    returns (result: Result<(Snapshot, nat), string>)
    requires limit > 0
    ensures result.Ok? ==>
              && Fetchable(src, departments, limit, result.value.1)
              && result.value.0 == Snapshot(departments, Companies(src, result.value.1))
    ensures result.Err? ==> NeverFetchable(src, departments, limit)
    ensures result.Err? ==> exists n :: StopsWith(src, departments, limit, n, result.error)
  {
    hide SeenIds, Fetchable, NeverFetchable, Companies, Validate, SomeBadRecord, HasUnknownParent;
    if !Distinct(DepartmentKeys(departments)) {
      DepartmentsRepeat(src, departments, limit);
      assert StopsWith(src, departments, limit, 0, "invalid_payload");
      return Err("invalid_payload");
    }
    assert Companies(src, 0) == [] && SeenIds({}, []) by { NothingRead(src); }
    var companies: seq<Company>, seenCompanies: set<string>, seenPages: set<seq<R>> := [], {}, {};
    var page, pageCount := 1, 0;
    while true
      invariant page == pageCount + 1 && pageCount < limit
      invariant forall i :: 1 <= i <= pageCount ==> Goes(src, i)
      invariant companies == Companies(src, pageCount) && Distinct(CompanyKeys(companies)) && SeenIds(seenCompanies, companies)
      invariant forall items :: items in seenPages ==> exists i :: 1 <= i <= pageCount && src.page(i) == Records(items)
      decreases limit - pageCount
    {
      var answer := src.page(page);
      if !answer.Records? {
        NotGoing(src, departments, limit, pageCount);
        var category := if answer.Failed? then answer.category else "invalid_payload";
        assert StopsWith(src, departments, limit, pageCount, category);
        return Err(category);
      }
      if answer.items == [] {
        break;
      }
      if answer.items in seenPages {
        var i :| 1 <= i <= pageCount && src.page(i) == Records(answer.items);
        PageRepeats(src, departments, limit, i, pageCount);
        assert StopsWith(src, departments, limit, pageCount, "pagination_loop");
        return Err("pagination_loop");
      }
      seenPages := seenPages + {answer.items};
      PageRead(src, pageCount);
      var records := ReadRecords(src, answer.items, companies, seenCompanies);
      if records.Err? {
        BadRecordsEnd(src, departments, limit, pageCount);
        assert StopsWith(src, departments, limit, pageCount, records.error);
        return Err(records.error);
      }
      companies, seenCompanies := records.value.0, records.value.1;
      pageCount := pageCount + 1;
      assert Goes(src, pageCount);
      if pageCount >= limit {
        LimitReached(src, departments, limit);
        assert StopsWith(src, departments, limit, limit, "pagination_limit");
        return Err("pagination_limit");
      }
      page := page + 1;
    }
    var snapshot := Snapshot(departments, companies);
    var error := CheckSnapshot(snapshot);
    if error.Some? {
      EndInvalid(src, departments, limit, pageCount);
      assert StopsWith(src, departments, limit, pageCount, error.value);
      return Err(error.value);
    }
    FetchDone(src, departments, limit, pageCount);
    result := Ok((snapshot, pageCount));
  }

  lemma FetchDone<R(!new)>(src: Source<R>, departments: seq<Department>, limit: nat, n: nat)
    requires n < limit && Complete(src, n) && Validate(Snapshot(departments, Companies(src, n))).None?
    ensures Fetchable(src, departments, limit, n)
  {
  }
}
