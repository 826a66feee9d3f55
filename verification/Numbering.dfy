/** Rows that are numbered 1, 2, ... separately for each owner, in the order of the rows. */
module Numbering {

  /** Each number is one more than the count of the owner's earlier rows. */
  ghost predicate Numbered(owners: seq<string>, numbers: seq<nat>) {
    && |numbers| == |owners|
    && forall i :: 0 <= i < |owners| ==> numbers[i] == multiset(owners[..i])[owners[i]] + 1
  }

  ghost predicate Has(owners: seq<string>, numbers: seq<nat>, owner: string, k: int)
    requires |numbers| == |owners|
  {
    exists i :: 0 <= i < |owners| && owners[i] == owner && numbers[i] == k
  }

  /** An owner's numbers are exactly 1 to the count of its rows, and they increase. */
  ghost predicate Exact(owners: seq<string>, numbers: seq<nat>, owner: string) {
    && |numbers| == |owners|
    && (forall k: int :: Has(owners, numbers, owner, k) <==> 1 <= k <= multiset(owners)[owner])
    && (forall i, j :: 0 <= i < j < |owners| && owners[i] == owners[j] == owner ==> numbers[i] < numbers[j])
  }

  lemma CountBelow(owners: seq<string>, i: nat, j: nat)
    requires i < j <= |owners|
    ensures multiset(owners[..i])[owners[i]] + 1 <= multiset(owners[..j])[owners[i]]
    ensures owners[i] !in owners[i + 1..j] ==> multiset(owners[..i])[owners[i]] + 1 == multiset(owners[..j])[owners[i]]
  {
    assert owners[..j] == owners[..i] + [owners[i]] + owners[i + 1..j];
  }

  lemma NumberedPrefix(owners: seq<string>, numbers: seq<nat>, n: nat)
    requires Numbered(owners, numbers) && n <= |owners|
    ensures Numbered(owners[..n], numbers[..n])
  {
    assert forall i :: 0 <= i < n ==> owners[..n][..i] == owners[..i];
  }

  lemma LastOne(owners: seq<string>, numbers: seq<nat>)
    requires Numbered(owners, numbers) && owners != []
    ensures var n := |owners| - 1;
            && numbers[n] == multiset(owners[..n])[owners[n]] + 1
            && forall owner :: multiset(owners)[owner] == multiset(owners[..n])[owner] + if owners[n] == owner then 1 else 0
  {
    var n := |owners| - 1;
    assert owners == owners[..n] + [owners[n]];
  }

  lemma {:induction false} Reached(owners: seq<string>, numbers: seq<nat>, owner: string, k: int)
    requires Numbered(owners, numbers) && 1 <= k <= multiset(owners)[owner]
    ensures Has(owners, numbers, owner, k)
  {
    hide Numbered;
    LengthsAgree(owners, numbers);
    if owners != [] {
      var n := |owners| - 1;
      LastOne(owners, numbers);
      if k <= multiset(owners[..n])[owner] {
        NumberedPrefix(owners, numbers, n);
        Reached(owners[..n], numbers[..n], owner, k);
        var i :| 0 <= i < n && owners[..n][i] == owner && numbers[..n][i] == k;
        assert owners[i] == owner && numbers[i] == k;
      } else {
        assert owners[n] == owner && numbers[n] == k;
      }
    }
  }

  lemma LengthsAgree(owners: seq<string>, numbers: seq<nat>)
    requires Numbered(owners, numbers)
    ensures |numbers| == |owners|
  {
  }

  lemma NumberedExact(owners: seq<string>, numbers: seq<nat>, owner: string)
    requires Numbered(owners, numbers)
    ensures Exact(owners, numbers, owner)
  {
    assert owners[..|owners|] == owners;
    forall k: int ensures Has(owners, numbers, owner, k) <==> 1 <= k <= multiset(owners)[owner] {
      if Has(owners, numbers, owner, k) {
        var i :| 0 <= i < |owners| && owners[i] == owner && numbers[i] == k;
        CountBelow(owners, i, |owners|);
      } else if 1 <= k <= multiset(owners)[owner] {
        Reached(owners, numbers, owner, k);
      }
    }
    forall i, j | 0 <= i < j < |owners| && owners[i] == owners[j] == owner ensures numbers[i] < numbers[j] {
      CountBelow(owners, i, j);
    }
  }

  /** The last row of an owner has its greatest number. */
  lemma LastHasCount(owners: seq<string>, numbers: seq<nat>, i: nat)
    requires Numbered(owners, numbers) && i < |owners| && owners[i] !in owners[i + 1..]
    ensures numbers[i] == multiset(owners)[owners[i]]
  {
    assert owners[..|owners|] == owners;
    CountBelow(owners, i, |owners|);
  }

  /** The greatest number of an owner, or 0, is the count of its rows. */
  lemma GreatestIsCount(owners: seq<string>, numbers: seq<nat>, owner: string, greatest: nat)
    requires Numbered(owners, numbers)
    requires greatest == 0 || Has(owners, numbers, owner, greatest)
    requires forall i :: 0 <= i < |owners| && owners[i] == owner ==> numbers[i] <= greatest
    ensures greatest == multiset(owners)[owner]
  {
    NumberedExact(owners, numbers, owner);
    var n := multiset(owners)[owner];
    if n > 0 {
      assert Has(owners, numbers, owner, n);
    }
  }

  lemma AppendNumbered(owners: seq<string>, numbers: seq<nat>, owner: string, number: nat)
    requires Numbered(owners, numbers) && number == multiset(owners)[owner] + 1
    ensures Numbered(owners + [owner], numbers + [number])
  {
    var next := owners + [owner];
    forall i | 0 <= i < |next| ensures (numbers + [number])[i] == multiset(next[..i])[next[i]] + 1 {
      assert next[..i] == owners[..i];
      assert owners[..|owners|] == owners;
    }
  }
}
