/** How many facts a snapshot states, against the counts that the snapshot reports of itself
    (`src/core/acessorias_directory.py`). */
module DirectorySizes {
  import opened Common
  import opened Tables
  import opened Directory

  /** `contact_count`. */
  function ContactCount(cs: seq<Company>): nat {
    if cs == [] then 0 else ContactCount(cs[..|cs| - 1]) + |cs[|cs| - 1].contacts|
  }

  /** `relationship_count`. */
  function RelationshipCount(cs: seq<Company>): nat {
    if cs == [] then 0 else RelationshipCount(cs[..|cs| - 1]) + |cs[|cs| - 1].departments|
  }

  ghost predicate KeysDistinct<K, V>(items: seq<Item<K, V>>) {
    forall i, j :: 0 <= i < j < |items| ==> items[i].key != items[j].key
  }

  lemma {:induction false} OverlayKeys<K, V>(items: seq<Item<K, V>>, k: K)
    ensures k in Overlay(items) <==> exists i :: 0 <= i < |items| && items[i].key == k
  {
    if items != [] {
      OverlayKeys(items[..|items| - 1], k);
    }
  }

  /** No more facts than items, and as many exactly when no key repeats. */
  lemma {:induction false} OverlaySize<K, V>(items: seq<Item<K, V>>)
    ensures |Overlay(items)| <= |items|
    ensures |Overlay(items)| == |items| <==> KeysDistinct(items)
  {
    if items != [] {
      var rest, last := items[..|items| - 1], items[|items| - 1];
      OverlaySize(rest);
      OverlayKeys(rest, last.key);
      assert items == rest + [last];
      if last.key in Overlay(rest) {
        assert Overlay(items).Keys == Overlay(rest).Keys;
      } else {
        assert Overlay(items).Keys == Overlay(rest).Keys + {last.key};
      }
    }
  }

  lemma KeysDistinctConcat<K, V>(a: seq<Item<K, V>>, b: seq<Item<K, V>>)
    requires forall x, y :: x in a && y in b ==> x.key != y.key
    ensures KeysDistinct(a + b) <==> KeysDistinct(a) && KeysDistinct(b)
  {
    var c := a + b;
    if KeysDistinct(c) {
      assert forall i :: 0 <= i < |a| ==> a[i] == c[i];
      assert forall i :: 0 <= i < |b| ==> b[i] == c[|a| + i];
    }
    if KeysDistinct(a) && KeysDistinct(b) {
      forall i, j | 0 <= i < j < |c| ensures c[i].key != c[j].key {
        if i < |a| && j >= |a| {
          assert c[i] == a[i] && c[j] == b[j - |a|];
        } else if i >= |a| {
          assert c[i] == b[i - |a|] && c[j] == b[j - |a|];
        }
      }
    }
  }

  lemma {:induction false} ContactItemsSize(cs: seq<Company>)
    requires Distinct(CompanyKeys(cs)) && forall c :: c in cs ==> Distinct(ContactKeys(c.contacts))
    ensures |ContactItems(cs)| == ContactCount(cs) && KeysDistinct(ContactItems(cs))
  {
    if cs != [] {
      var rest, last := cs[..|cs| - 1], cs[|cs| - 1];
      OtherCompanies(cs);
      ContactItemsSize(rest);
      var own := ContactsOf(last.externalId, last.contacts);
      assert KeysDistinct(own) by {
        assert forall i :: 0 <= i < |own| ==> own[i].key == (last.externalId, ContactKeys(last.contacts)[i]);
      }
      forall x, y | x in ContactItems(rest) && y in own ensures x.key != y.key { ContactItemsMeaning(rest, x); }
      KeysDistinctConcat(ContactItems(rest), own);
    }
  }

  lemma OtherCompanies(cs: seq<Company>)
    requires cs != [] && Distinct(CompanyKeys(cs))
    ensures Distinct(CompanyKeys(cs[..|cs| - 1]))
    ensures forall c :: c in cs[..|cs| - 1] ==> c.externalId != cs[|cs| - 1].externalId
  {
    var keys, rest := CompanyKeys(cs), cs[..|cs| - 1];
    assert CompanyKeys(rest) == keys[..|cs| - 1];
    forall c | c in rest ensures c.externalId != cs[|cs| - 1].externalId {
      var i :| 0 <= i < |rest| && rest[i] == c;
      assert keys[i] == c.externalId && keys[|cs| - 1] == cs[|cs| - 1].externalId;
    }
  }

  ghost predicate NoRepeatedDepartments(cs: seq<Company>) { forall c :: c in cs ==> Distinct(c.departments) }

  lemma {:induction false} RelationItemsSize(cs: seq<Company>)
    requires Distinct(CompanyKeys(cs))
    ensures |RelationItems(cs)| == RelationshipCount(cs)
    ensures KeysDistinct(RelationItems(cs)) <==> NoRepeatedDepartments(cs)
  {
    if cs != [] {
      var rest, last := cs[..|cs| - 1], cs[|cs| - 1];
      assert cs == rest + [last];
      OtherCompanies(cs);
      RelationItemsSize(rest);
      var own := RelationsOf(last.externalId, last.departments);
      assert KeysDistinct(own) <==> Distinct(last.departments) by {
        assert forall i :: 0 <= i < |own| ==> own[i].key == (last.externalId, last.departments[i]);
      }
      forall x, y | x in RelationItems(rest) && y in own ensures x.key != y.key { RelationItemsMeaning(rest, x); }
      KeysDistinctConcat(RelationItems(rest), own);
    }
  }

  /** A valid snapshot states as many facts as it counts of itself, except that a repeated department id of
      a company is counted and not stated: relations agree exactly when there is none. */
  lemma SnapshotSizes(s: Snapshot)
    requires Validate(s).None?
    ensures |FactsOf(s).departments| == |s.departments|
    ensures |FactsOf(s).companies| == |s.companies|
    ensures |FactsOf(s).contacts| == ContactCount(s.companies)
    ensures |FactsOf(s).relations| <= RelationshipCount(s.companies)
    ensures |FactsOf(s).relations| == RelationshipCount(s.companies) <==> NoRepeatedDepartments(s.companies)
  {
    assert KeysDistinct(DepartmentItems(s.departments)) by {
      assert forall i :: 0 <= i < |s.departments| ==> DepartmentItems(s.departments)[i].key == DepartmentKeys(s.departments)[i];
    }
    assert KeysDistinct(CompanyItems(s.companies)) by {
      assert forall i :: 0 <= i < |s.companies| ==> CompanyItems(s.companies)[i].key == CompanyKeys(s.companies)[i];
    }
    ContactItemsSize(s.companies);
    RelationItemsSize(s.companies);
    OverlaySize(DepartmentItems(s.departments));
    OverlaySize(CompanyItems(s.companies));
    OverlaySize(ContactItems(s.companies));
    OverlaySize(RelationItems(s.companies));
  }
}
