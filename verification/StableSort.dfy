/** A stable sort by any comparison, and what it needs of the comparison on the elements it is given. */
module StableSort {
  function InsertBy<T>(x: T, xs: seq<T>, order: (T, T) -> int): seq<T> {
    if xs == [] || order(x, xs[0]) <= 0 then [x] + xs else [xs[0]] + InsertBy(x, xs[1..], order)
  }

  function SortedBy<T>(xs: seq<T>, order: (T, T) -> int): seq<T> {
    if xs == [] then [] else InsertBy(xs[0], SortedBy(xs[1..], order), order)
  }

  /** On these elements the comparison is total and transitive. */
  ghost predicate OrdersOn<T>(xs: seq<T>, order: (T, T) -> int) {
    && (forall a, b | a in xs && b in xs :: order(a, b) <= 0 || order(b, a) <= 0)
    && (forall a, b, c | a in xs && b in xs && c in xs :: order(a, b) <= 0 && order(b, c) <= 0 ==> order(a, c) <= 0)
  }

  ghost predicate InOrder<T>(xs: seq<T>, order: (T, T) -> int) {
    forall i, j | 0 <= i < j < |xs| :: order(xs[i], xs[j]) <= 0
  }

  lemma {:induction false} InsertKeeps<T>(x: T, xs: seq<T>, order: (T, T) -> int)
    ensures var out := InsertBy(x, xs, order); |out| == |xs| + 1 && multiset(out) == multiset([x] + xs)
  {
    var out := InsertBy(x, xs, order);
    if out != [x] + xs {
      InsertKeeps(x, xs[1..], order);
      assert xs == [xs[0]] + xs[1..];
      assert multiset([xs[0]] + InsertBy(x, xs[1..], order)) == multiset{xs[0]} + multiset([x] + xs[1..]);
    }
  }

  /** Sorting neither loses nor adds anything. */
  lemma {:induction false} SortKeeps<T>(xs: seq<T>, order: (T, T) -> int)
    ensures var out := SortedBy(xs, order); |out| == |xs| && multiset(out) == multiset(xs)
  {
    if xs != [] {
      SortKeeps(xs[1..], order);
      InsertKeeps(xs[0], SortedBy(xs[1..], order), order);
      assert xs == [xs[0]] + xs[1..];
    }
  }

  lemma SameMembers<T(!new)>(a: seq<T>, b: seq<T>)
    requires multiset(a) == multiset(b)
    ensures forall x :: x in a <==> x in b
  {
    forall x
      ensures x in a <==> x in b
    {
      assert x in multiset(a) <==> x in multiset(b);
    }
  }

  lemma SortMembers<T(!new)>(xs: seq<T>, order: (T, T) -> int)
    ensures forall y :: y in SortedBy(xs, order) <==> y in xs
  {
    SortKeeps(xs, order);
    SameMembers(SortedBy(xs, order), xs);
  }

  lemma InsertMembers<T(!new)>(x: T, xs: seq<T>, order: (T, T) -> int)
    ensures forall y :: y in InsertBy(x, xs, order) <==> y == x || y in xs
  {
    InsertKeeps(x, xs, order);
    SameMembers(InsertBy(x, xs, order), [x] + xs);
  }

  /** The first of a list in order comes before everything in it, and so does what comes before the first. */
  lemma FirstComesFirst<T>(x: T, xs: seq<T>, all: seq<T>, order: (T, T) -> int, y: T)
    requires OrdersOn(all, order) && InOrder(xs, order) && x in all && (forall z | z in xs :: z in all)
    requires xs != [] && order(x, xs[0]) <= 0 && y in xs
    ensures order(x, y) <= 0
  {
    var j :| 0 <= j < |xs| && xs[j] == y;
    assert xs[0] in all && y in all;
    assert j > 0 ==> order(xs[0], xs[j]) <= 0;
  }

  lemma ConsInOrder<T>(x: T, xs: seq<T>, order: (T, T) -> int)
    requires InOrder(xs, order) && forall y | y in xs :: order(x, y) <= 0
    ensures InOrder([x] + xs, order)
  {
  }

  lemma {:induction false} InsertOrders<T(!new)>(x: T, xs: seq<T>, all: seq<T>, order: (T, T) -> int)
    requires OrdersOn(all, order) && InOrder(xs, order) && x in all && forall z | z in xs :: z in all
    ensures InOrder(InsertBy(x, xs, order), order)
  {
    hide OrdersOn;
    if xs == [] {
    } else if order(x, xs[0]) <= 0 {
      forall y | y in xs
        ensures order(x, y) <= 0
      {
        FirstComesFirst(x, xs, all, order, y);
      }
      ConsInOrder(x, xs, order);
    } else {
      var rest := InsertBy(x, xs[1..], order);
      InsertOrders(x, xs[1..], all, order);
      InsertMembers(x, xs[1..], order);
      forall y | y in rest
        ensures order(xs[0], y) <= 0
      {
        if y == x {
          ComesOneWay(all, order, x, xs[0]);
        }
      }
      ConsInOrder(xs[0], rest, order);
    }
  }

  lemma ComesOneWay<T>(all: seq<T>, order: (T, T) -> int, a: T, b: T)
    requires OrdersOn(all, order) && a in all && b in all
    ensures order(a, b) <= 0 || order(b, a) <= 0
  {
  }

  /** And it puts the elements in order. */
  lemma {:induction false} SortOrders<T(!new)>(xs: seq<T>, all: seq<T>, order: (T, T) -> int)
    requires OrdersOn(all, order) && forall x | x in xs :: x in all
    ensures InOrder(SortedBy(xs, order), order)
  {
    hide OrdersOn, InOrder;
    if xs == [] {
      NothingInOrder(order);
    } else {
      SortOrders(xs[1..], all, order);
      SortMembers(xs[1..], order);
      InsertOrders(xs[0], SortedBy(xs[1..], order), all, order);
    }
  }

  lemma NothingInOrder<T>(order: (T, T) -> int)
    ensures InOrder([], order)
  {
  }

  /** A permutation without the first element is one of the rest. */
  lemma WithoutFirst<T>(a: seq<T>, b: seq<T>) returns (i: nat)
    requires multiset(a) == multiset(b) && a != []
    ensures i < |b| && b[i] == a[0] && multiset(a[1..]) == multiset(b[..i] + b[i + 1..])
  {
    assert a[0] in multiset(b);
    i :| 0 <= i < |b| && b[i] == a[0];
    assert a == [a[0]] + a[1..];
    assert b == b[..i] + [b[i]] + b[i + 1..];
    assert multiset(b[..i] + b[i + 1..]) == multiset(b) - multiset{b[i]};
    assert multiset(a[1..]) == multiset(a) - multiset{a[0]};
  }

  /** Leaving out element i keeps the last element last, unless it is the one left out. */
  lemma WithoutOne<T>(xs: seq<T>, i: nat)
    requires i < |xs|
    ensures var front, rest := xs[..|xs| - 1], xs[..i] + xs[i + 1..];
            if i == |xs| - 1 then rest == front
            else rest != [] && rest[|rest| - 1] == xs[|xs| - 1] && rest[..|rest| - 1] == front[..i] + front[i + 1..]
  {
  }
}
