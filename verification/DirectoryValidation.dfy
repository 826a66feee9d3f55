/** What the validation of a directory snapshot accepts: `_validate_snapshot` of `src/core/acessorias_directory.py`. */
module DirectoryValidation {
  import opened Common
  import opened Directory

  ghost predicate RepeatsDepartment(s: Snapshot) {
    exists i, j :: 0 <= i < j < |s.departments| && s.departments[i].externalId == s.departments[j].externalId
  }

  /** Two companies have the same id, or the same provider id. */
  ghost predicate RepeatsCompany(s: Snapshot) {
    exists i, j :: 0 <= i < j < |s.companies| &&
      (s.companies[i].externalId == s.companies[j].externalId
       || s.companies[i].fields.providerId == s.companies[j].fields.providerId)
  }

  ghost predicate HasStranger(s: Snapshot, c: Company) {
    exists id :: id in c.departments && forall d :: d in s.departments ==> d.externalId != id
  }

  ghost predicate RepeatsContact(c: Company) {
    exists i, j :: 0 <= i < j < |c.contacts| && c.contacts[i].externalKey == c.contacts[j].externalKey
  }

  lemma CompanyCheck(s: Snapshot, c: Company)
    ensures Parented(c, DepartmentKeys(s.departments)) <==> !HasStranger(s, c)
    ensures Distinct(ContactKeys(c.contacts)) <==> !RepeatsContact(c)
  {
    var keys := DepartmentKeys(s.departments);
    forall id ensures id in keys <==> exists d :: d in s.departments && d.externalId == id {
      if id in keys { var i :| 0 <= i < |keys| && keys[i] == id; assert s.departments[i] in s.departments; }
      if d :| d in s.departments && d.externalId == id {
        var i :| 0 <= i < |s.departments| && s.departments[i] == d;
        assert keys[i] == id;
      }
    }
    assert forall i :: 0 <= i < |c.contacts| ==> ContactKeys(c.contacts)[i] == c.contacts[i].externalKey;
  }

  lemma KeysCheck(s: Snapshot)
    ensures Distinct(DepartmentKeys(s.departments)) <==> !RepeatsDepartment(s)
    ensures Distinct(CompanyKeys(s.companies)) && Distinct(ProviderKeys(s.companies)) <==> !RepeatsCompany(s)
  {
    var ds, cs, ps := DepartmentKeys(s.departments), CompanyKeys(s.companies), ProviderKeys(s.companies);
    assert forall i :: 0 <= i < |ds| ==> ds[i] == s.departments[i].externalId;
    assert forall i :: 0 <= i < |cs| ==> cs[i] == s.companies[i].externalId && ps[i] == s.companies[i].fields.providerId;
  }

  ghost predicate Refused(s: Snapshot, c: Company) { HasStranger(s, c) || RepeatsContact(c) }

  /** Company `i` is the first that is refused, and gives the category. */
  ghost predicate RefusedFirst(s: Snapshot, cs: seq<Company>, i: nat, category: string) {
    && i < |cs| && Refused(s, cs[i]) && (forall j :: 0 <= j < i ==> !Refused(s, cs[j]))
    && category == if HasStranger(s, cs[i]) then "invalid_parent" else "invalid_payload"
  }

  lemma {:induction false} FirstBadCompany(s: Snapshot, cs: seq<Company>)
    ensures var error := ValidateCompanies(cs, DepartmentKeys(s.departments));
            && (error.None? <==> forall c :: c in cs ==> !Refused(s, c))
            && (error.Some? ==> exists i :: RefusedFirst(s, cs, i, error.value))
  {
    if cs != [] {
      hide HasStranger, RepeatsContact, Parented, Distinct;
      CompanyCheck(s, cs[0]);
      var rest := cs[1..];
      FirstBadCompany(s, rest);
      assert cs == [cs[0]] + rest;
      var error := ValidateCompanies(cs, DepartmentKeys(s.departments));
      if error.Some? {
        if Refused(s, cs[0]) {
          assert RefusedFirst(s, cs, 0, error.value);
        } else {
          var i :| RefusedFirst(s, rest, i, error.value);
          RefusedLater(s, cs, i, error.value);
        }
      }
    }
  }

  lemma RefusedLater(s: Snapshot, cs: seq<Company>, i: nat, category: string)
    requires cs != [] && !Refused(s, cs[0]) && RefusedFirst(s, cs[1..], i, category)
    ensures RefusedFirst(s, cs, i + 1, category)
  {
    hide Refused;
    forall j | 0 <= j < i + 1 ensures !Refused(s, cs[j]) {
      if j > 0 { assert cs[j] == cs[1..][j - 1]; }
    }
  }

  /** Which snapshots are valid: no repeated department, company, provider id or contact, and no unknown department. */
  lemma ValidateMeaning(s: Snapshot)
    ensures var error := Validate(s);
            && (error.None? <==>
                  && !RepeatsDepartment(s) && !RepeatsCompany(s)
                  && forall c :: c in s.companies ==> !HasStranger(s, c) && !RepeatsContact(c))
            && (error.Some? && !RepeatsDepartment(s) && !RepeatsCompany(s) ==>
                  exists i :: RefusedFirst(s, s.companies, i, error.value))
            && (RepeatsDepartment(s) || RepeatsCompany(s) ==> error == Some("invalid_payload"))
  {
    hide RepeatsDepartment, RepeatsCompany, HasStranger, RepeatsContact, Distinct;
    KeysCheck(s);
    FirstBadCompany(s, s.companies);
  }
}
