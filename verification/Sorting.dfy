/** Python's `sorted` with a text key: what it keeps, and what it forgets. */
module Sorting {
  /** Python's order on strings. */
  predicate LessOrEqual(a: string, b: string) {
    a == "" || (b != "" && (a[0] < b[0] || (a[0] == b[0] && LessOrEqual(a[1..], b[1..]))))
  }

  function Insert<T(!new)>(x: T, xs: seq<T>, key: T -> string): (r: seq<T>)
    ensures multiset(r) == multiset(xs) + multiset{x}
  {
    if xs == [] then [x]
    else if LessOrEqual(key(x), key(xs[0])) then [x] + xs
    else assert xs == [xs[0]] + xs[1..]; [xs[0]] + Insert(x, xs[1..], key)
  }

  function Sort<T(!new)>(xs: seq<T>, key: T -> string): (r: seq<T>)
    ensures multiset(r) == multiset(xs)
  {
    if xs == [] then []
    else
      var last := xs[|xs| - 1];
      assert xs == xs[..|xs| - 1] + [last];
      Insert(last, Sort(xs[..|xs| - 1], key), key)
  }

  lemma SameElements<T(!new)>(a: seq<T>, b: seq<T>)
    requires multiset(a) == multiset(b)
    ensures |a| == |b| && forall x :: x in a <==> x in b
  {
    assert |a| == |multiset(a)| && |b| == |multiset(b)|;
    forall x ensures x in a <==> x in b {
      assert x in a <==> x in multiset(a);
      assert x in b <==> x in multiset(b);
    }
  }

  lemma {:induction false} OrderTotal(a: string, b: string)
    ensures LessOrEqual(a, b) || LessOrEqual(b, a)
  {
    if a != "" && b != "" && a[0] == b[0] { OrderTotal(a[1..], b[1..]); }
  }

  lemma {:induction false} OrderAntisymmetric(a: string, b: string)
    requires LessOrEqual(a, b) && LessOrEqual(b, a)
    ensures a == b
  {
    if a != "" {
      OrderAntisymmetric(a[1..], b[1..]);
      assert a == [a[0]] + a[1..] && b == [b[0]] + b[1..];
    }
  }

  lemma {:induction false} OrderTransitive(a: string, b: string, c: string)
    requires LessOrEqual(a, b) && LessOrEqual(b, c)
    ensures LessOrEqual(a, c)
  {
    if a != "" && a[0] == b[0] && b[0] == c[0] { OrderTransitive(a[1..], b[1..], c[1..]); }
  }

  ghost predicate Ordered<T>(xs: seq<T>, key: T -> string) {
    forall i, j :: 0 <= i < j < |xs| ==> LessOrEqual(key(xs[i]), key(xs[j]))
  }

  lemma {:induction false} InsertOrdered<T(!new)>(x: T, xs: seq<T>, key: T -> string)
    requires Ordered(xs, key)
    ensures Ordered(Insert(x, xs, key), key)
  {
    if xs != [] {
      OrderTotal(key(x), key(xs[0]));
      if LessOrEqual(key(x), key(xs[0])) {
        forall i | 0 <= i < |xs| ensures LessOrEqual(key(x), key(xs[i])) {
          if i > 0 { OrderTransitive(key(x), key(xs[0]), key(xs[i])); }
        }
      } else {
        var rest := Insert(x, xs[1..], key);
        InsertOrdered(x, xs[1..], key);
        SameElements(rest, xs[1..] + [x]);
        forall i | 0 <= i < |rest| ensures LessOrEqual(key(xs[0]), key(rest[i])) {
          assert rest[i] in xs[1..] + [x];
        }
      }
    }
  }

  lemma {:induction false} SortOrdered<T(!new)>(xs: seq<T>, key: T -> string)
    ensures Ordered(Sort(xs, key), key)
  {
    if xs != [] {
      SortOrdered(xs[..|xs| - 1], key);
      InsertOrdered(xs[|xs| - 1], Sort(xs[..|xs| - 1], key), key);
    }
  }

  /** Equal keys among the elements mean equal elements. */
  ghost predicate KeyTells<T(!new)>(xs: seq<T>, key: T -> string) {
    forall x, y :: x in xs && y in xs && key(x) == key(y) ==> x == y
  }

  lemma SameHead<T(!new)>(a: seq<T>, b: seq<T>, key: T -> string)
    requires a != [] && b != [] && b[0] in a && a[0] in b && Ordered(a, key) && Ordered(b, key) && KeyTells(a, key)
    ensures a[0] == b[0]
  {
    var i :| 0 <= i < |a| && a[i] == b[0];
    var j :| 0 <= j < |b| && b[j] == a[0];
    OrderTotal(key(a[0]), key(a[0]));
    assert LessOrEqual(key(a[0]), key(b[0])) && LessOrEqual(key(b[0]), key(a[0]));
    OrderAntisymmetric(key(a[0]), key(b[0]));
  }

  lemma TailElements<T>(a: seq<T>)
    requires a != []
    ensures multiset(a[1..]) == multiset(a) - multiset{a[0]}
  {
    assert a == [a[0]] + a[1..];
  }

  lemma {:induction false} OrderedUnique<T(!new)>(a: seq<T>, b: seq<T>, key: T -> string)
    requires multiset(a) == multiset(b) && Ordered(a, key) && Ordered(b, key) && KeyTells(a, key)
    ensures a == b
  {
    SameElements(a, b);
    if a != [] {
      assert b[0] in a && a[0] in b;
      SameHead(a, b, key);
      TailElements(a);
      TailElements(b);
      OrderedUnique(a[1..], b[1..], key);
      assert a == [a[0]] + a[1..] && b == [b[0]] + b[1..];
    }
  }

  ghost predicate KeysDiffer<T>(xs: seq<T>, key: T -> string) {
    forall i, j :: 0 <= i < j < |xs| ==> key(xs[i]) != key(xs[j])
  }

  lemma {:induction false} OrderedUniqueBySet<T(!new)>(a: seq<T>, b: seq<T>, key: T -> string)
    requires (forall x :: x in a <==> x in b) && Ordered(a, key) && Ordered(b, key)
    requires KeysDiffer(a, key) && KeysDiffer(b, key)
    ensures a == b
  {
    assert b != [] ==> b[0] in a;
    if a != [] {
      assert a[0] in b && b != [] && b[0] in a;
      assert KeyTells(a, key) by {
        forall x, y | x in a && y in a && key(x) == key(y) ensures x == y {
          var i :| 0 <= i < |a| && a[i] == x;
          var j :| 0 <= j < |a| && a[j] == y;
        }
      }
      SameHead(a, b, key);
      assert a == [a[0]] + a[1..] && b == [b[0]] + b[1..];
      forall x ensures x in a[1..] <==> x in b[1..] {
        RestHas(a, key, x);
        RestHas(b, key, x);
      }
      OrderedUniqueBySet(a[1..], b[1..], key);
    }
  }

  lemma RestHas<T(!new)>(xs: seq<T>, key: T -> string, x: T)
    requires xs != [] && KeysDiffer(xs, key)
    ensures x in xs[1..] <==> x in xs && x != xs[0]
  {
    if x in xs[1..] {
      var i :| 0 <= i < |xs| - 1 && xs[1..][i] == x;
      assert xs[i + 1] == x;
    }
    if x in xs && x != xs[0] {
      var i :| 0 <= i < |xs| && xs[i] == x;
      assert xs[1..][i - 1] == x;
    }
  }

  /** Sorting forgets the order, and only the order. */
  lemma SortForgetsOrder<T(!new)>(a: seq<T>, b: seq<T>, key: T -> string)
    requires KeyTells(a, key)
    ensures Sort(a, key) == Sort(b, key) <==> multiset(a) == multiset(b)
  {
    if multiset(a) == multiset(b) {
      SortOrdered(a, key);
      SortOrdered(b, key);
      SameElements(Sort(a, key), a);
      OrderedUnique(Sort(a, key), Sort(b, key), key);
    }
  }

  lemma {:induction false} InsertDiffers<T(!new)>(x: T, xs: seq<T>, key: T -> string)
    requires KeysDiffer(xs, key) && forall y :: y in xs ==> key(y) != key(x)
    ensures KeysDiffer(Insert(x, xs, key), key)
  {
    if xs != [] && !LessOrEqual(key(x), key(xs[0])) {
      InsertDiffers(x, xs[1..], key);
      var rest := Insert(x, xs[1..], key);
      SameElements(rest, xs[1..] + [x]);
      assert forall i :: 0 <= i < |rest| ==> rest[i] in xs[1..] + [x];
    }
  }

  /** Sorting keeps distinct keys distinct. */
  lemma {:induction false} SortDiffers<T(!new)>(xs: seq<T>, key: T -> string)
    requires KeysDiffer(xs, key)
    ensures KeysDiffer(Sort(xs, key), key)
  {
    if xs != [] {
      var rest := xs[..|xs| - 1];
      SameElements(Sort(rest, key), rest);
      SortDiffers(rest, key);
      InsertDiffers(xs[|xs| - 1], Sort(rest, key), key);
    }
  }

  function Mapped<T, U>(f: T -> U, xs: seq<T>): (r: seq<U>)
    ensures |r| == |xs| && forall i :: 0 <= i < |xs| ==> r[i] == f(xs[i])
  {
    seq(|xs|, i requires 0 <= i < |xs| => f(xs[i]))
  }

  lemma {:induction false} InsertMaps<T(!new)>(x: T, xs: seq<T>, f: T -> T, key: T -> string)
    requires forall y :: key(f(y)) == key(y)
    ensures Insert(f(x), Mapped(f, xs), key) == Mapped(f, Insert(x, xs, key))
  {
    hide LessOrEqual;
    if xs == [] {
      assert Mapped(f, [x]) == [f(x)];
    } else if LessOrEqual(key(x), key(xs[0])) {
      assert Mapped(f, [x] + xs) == [f(x)] + Mapped(f, xs);
    } else {
      var rest := Insert(x, xs[1..], key);
      assert Mapped(f, [xs[0]] + rest) == [f(xs[0])] + Mapped(f, rest);
      InsertMaps(x, xs[1..], f, key);
      assert Mapped(f, xs)[1..] == Mapped(f, xs[1..]);
    }
  }

  /** Sorting commutes with a change that keeps the keys. */
  lemma {:induction false} SortMaps<T(!new)>(xs: seq<T>, f: T -> T, key: T -> string)
    requires forall y :: key(f(y)) == key(y)
    ensures Sort(Mapped(f, xs), key) == Mapped(f, Sort(xs, key))
  {
    if xs != [] {
      var rest := xs[..|xs| - 1];
      assert Mapped(f, xs)[..|xs| - 1] == Mapped(f, rest);
      SortMaps(rest, f, key);
      InsertMaps(xs[|xs| - 1], Sort(rest, key), f, key);
    }
  }
}
