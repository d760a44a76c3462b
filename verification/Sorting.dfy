/** sort.Slice and sort.Strings: an arrangement of the elements in the order of a comparator. */
module Sorting {
  function Insert<T(!new)>(before: (T, T) -> bool, x: T, s: seq<T>): (r: seq<T>)
    ensures multiset(r) == multiset(s) + multiset{x}
  {
    if s == [] then [x]
    else if !before(s[0], x) then [x] + s
    else
      assert s == [s[0]] + s[1..];
      [s[0]] + Insert(before, x, s[1..])
  }

  function Sort<T(!new)>(before: (T, T) -> bool, s: seq<T>): (r: seq<T>)
    ensures multiset(r) == multiset(s) && |r| == |s|
  {
    if s == [] then []
    else
      assert s == [s[0]] + s[1..];
      var r := Insert(before, s[0], Sort(before, s[1..]));
      assert |multiset(r)| == |multiset(s)|;
      r
  }

  /** What the comparators must be for a sort to have a meaning. */
  ghost predicate WeakOrder<T(!new)>(before: (T, T) -> bool) {
    && (forall a, b :: before(a, b) ==> !before(b, a))
    && (forall a, b, c :: before(a, c) ==> before(a, b) || before(b, c))
  }

  /** No element comes before an earlier one. */
  ghost predicate Ordered<T(!new)>(before: (T, T) -> bool, s: seq<T>) {
    forall i, j :: 0 <= i < j < |s| ==> !before(s[j], s[i])
  }

  lemma {:induction false} InsertOrdered<T(!new)>(before: (T, T) -> bool, x: T, s: seq<T>)
    requires WeakOrder(before) && Ordered(before, s)
    ensures Ordered(before, Insert(before, x, s))
  {
    if s != [] {
      var first := s[0];
      if before(first, x) {
        InsertOrdered(before, x, s[1..]);
        InsertMembers(before, x, s[1..]);
        forall y | y in Insert(before, x, s[1..]) ensures !before(y, first) {}
      } else {
        forall y | y in s ensures !before(y, x) {
          assert before(y, x) ==> before(y, first) || before(first, x);
        }
      }
    }
  }

  lemma {:induction false} SortOrdered<T(!new)>(before: (T, T) -> bool, s: seq<T>)
    requires WeakOrder(before)
    ensures Ordered(before, Sort(before, s))
  {
    if s != [] {
      SortOrdered(before, s[1..]);
      InsertOrdered(before, s[0], Sort(before, s[1..]));
    }
  }

  ghost predicate Pairwise<T(!new)>(p: (T, T) -> bool, s: seq<T>) {
    forall i, j :: 0 <= i < j < |s| ==> p(s[i], s[j]) && p(s[j], s[i])
  }

  lemma PairwiseCons<T(!new)>(p: (T, T) -> bool, x: T, s: seq<T>)
    requires Pairwise(p, s) && forall y | y in s :: p(x, y) && p(y, x)
    ensures Pairwise(p, [x] + s)
  {
  }

  lemma InsertMembers<T(!new)>(before: (T, T) -> bool, x: T, s: seq<T>)
    ensures forall y :: y in Insert(before, x, s) <==> y == x || y in s
  {
    forall y ensures y in Insert(before, x, s) <==> y == x || y in s {
      assert y in Insert(before, x, s) <==> y in multiset(Insert(before, x, s));
    }
  }

  lemma {:induction false} InsertPairwise<T(!new)>(before: (T, T) -> bool, p: (T, T) -> bool, x: T, s: seq<T>)
    requires Pairwise(p, s) && forall y | y in s :: p(x, y) && p(y, x)
    ensures Pairwise(p, Insert(before, x, s))
  {
    if s != [] && before(s[0], x) {
      InsertPairwise(before, p, x, s[1..]);
      InsertMembers(before, x, s[1..]);
      PairwiseCons(p, s[0], Insert(before, x, s[1..]));
    } else {
      PairwiseCons(p, x, s);
    }
  }

  /** What any two elements have to do with each other survives sorting. */
  lemma {:induction false} SortPairwise<T(!new)>(before: (T, T) -> bool, p: (T, T) -> bool, s: seq<T>)
    requires Pairwise(p, s)
    ensures Pairwise(p, Sort(before, s))
  {
    if s != [] {
      SortPairwise(before, p, s[1..]);
      forall y | y in Sort(before, s[1..]) ensures p(s[0], y) && p(y, s[0]) {
        assert y in multiset(s[1..]);
        var i :| 0 <= i < |s| - 1 && s[1..][i] == y;
        assert s[i + 1] == y;
      }
      InsertPairwise(before, p, s[0], Sort(before, s[1..]));
    }
  }
}
