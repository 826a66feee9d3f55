/** `ORDER BY key, id LIMIT n` over a table whose rows are numbered in the order of their ids. */
module Selection {
  import opened Common

  /** The sort key of each candidate row; None where a row is no candidate. */
  type Keys = seq<Option<int>>

  function Candidates(keys: Keys): set<nat> { set i | 0 <= i < |keys| && keys[i].Some? }

  predicate Before(keys: Keys, i: nat, j: nat)
    requires i in Candidates(keys) && j in Candidates(keys)
  {
    keys[i].value < keys[j].value || (keys[i].value == keys[j].value && i < j)
  }

  /** The first row of the order. */
  function Best(keys: Keys): (best: Option<nat>)
    ensures best.None? <==> Candidates(keys) == {}
    ensures best.Some? ==>
              && best.value in Candidates(keys)
              && forall j :: j in Candidates(keys) && j != best.value ==> Before(keys, best.value, j)
  {
    if keys == [] then None
    else
      var rest, last := keys[..|keys| - 1], keys[|keys| - 1];
      var best := Best(rest);
      assert forall j :: j in Candidates(keys) ==> j in Candidates(rest) || (j == |rest| && last.Some?);
      assert forall j :: j in Candidates(rest) ==> j in Candidates(keys);
      assert last.Some? ==> |rest| in Candidates(keys);
      if last.Some? && (best.None? || last.value < rest[best.value].value) then Some(|rest|) else best
  }

  /** The first `n` rows of the order. */
  function Chosen(keys: Keys, n: nat): (chosen: seq<nat>)
    ensures |chosen| <= n
    decreases n
  {
    var best := Best(keys);
    if n == 0 || best.None? then [] else [best.value] + Chosen(keys[best.value := None], n - 1)
  }

  lemma Without(keys: Keys, i: nat)
    requires i in Candidates(keys)
    ensures Candidates(keys[i := None]) == Candidates(keys) - {i}
    ensures |Candidates(keys[i := None])| == |Candidates(keys)| - 1
  {
    assert Candidates(keys[i := None]) == Candidates(keys) - {i};
  }

  /** `Chosen` is what its name says: candidates, each once, in order, as many as there are up to `n`, and
      ahead of every candidate that is left. */
  lemma {:induction false} ChosenMeaning(keys: Keys, n: nat)
    ensures var c := Chosen(keys, n);
            && (forall i :: 0 <= i < |c| ==> c[i] in Candidates(keys))
            && (forall i, j :: 0 <= i < j < |c| ==> c[i] != c[j] && Before(keys, c[i], c[j]))
            && |c| == (if |Candidates(keys)| < n then |Candidates(keys)| else n)
            && (forall i, j :: 0 <= i < |c| && j in Candidates(keys) && j !in c ==> Before(keys, c[i], j))
            && (|Candidates(keys)| <= n ==> forall j :: j in Candidates(keys) ==> j in c)
    decreases n
  {
    var best := Best(keys);
    if n > 0 && best.Some? {
      var b := best.value;
      var keys' := keys[b := None];
      Without(keys, b);
      ChosenMeaning(keys', n - 1);
      var c, rest := Chosen(keys, n), Chosen(keys', n - 1);
      assert c == [b] + rest;
      assert forall i, j :: i in Candidates(keys') && j in Candidates(keys') ==> (Before(keys', i, j) <==> Before(keys, i, j));
    } else if best.None? {
      assert |Candidates(keys)| == 0;
    }
  }
}
