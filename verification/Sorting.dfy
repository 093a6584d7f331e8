/** What `std::sort` promises, for a comparison that is a strict weak order. */
module Sorting {
  import opened Sequences

  ghost predicate StrictWeakOrder<T(!new)>(less: (T, T) -> bool) {
    && (forall x :: !less(x, x))
    && (forall x, y, z :: less(x, y) && less(y, z) ==> less(x, z))
    && (forall x, y, z :: less(x, z) ==> less(x, y) || less(y, z))
  }

  ghost predicate SortedBy<T>(less: (T, T) -> bool, s: seq<T>) {
    forall i, j :: 0 <= i < j < |s| ==> !less(s[j], s[i])
  }

  function Insert<T>(less: (T, T) -> bool, s: seq<T>, x: T): seq<T> {
    if s == [] then [x]
    else if less(x, s[|s| - 1]) then Insert(less, s[..|s| - 1], x) + [s[|s| - 1]]
    else s + [x]
  }

  function Sort<T>(less: (T, T) -> bool, s: seq<T>): seq<T> {
    if s == [] then [] else Insert(less, Sort(less, s[..|s| - 1]), s[|s| - 1])
  }

  lemma {:induction false} InsertPermutes<T>(less: (T, T) -> bool, s: seq<T>, x: T)
    ensures multiset(Insert(less, s, x)) == multiset(s) + multiset{x}
  {
    if s != [] && less(x, s[|s| - 1]) {
      InsertPermutes(less, s[..|s| - 1], x);
      assert s == s[..|s| - 1] + [s[|s| - 1]];
    }
  }

  lemma {:induction false} InsertSorts<T(!new)>(less: (T, T) -> bool, s: seq<T>, x: T)
    requires StrictWeakOrder(less) && SortedBy(less, s)
    ensures SortedBy(less, Insert(less, s, x))
  {
    if s == [] {
      return;
    }
    var front, last := s[..|s| - 1], s[|s| - 1];
    if less(x, last) {
      var init := Insert(less, front, x);
      InsertSorts(less, front, x);
      InsertPermutes(less, front, x);
      SameElements(init, front + [x]);
      NoneAboveLast(less, s);
      forall y <- init ensures !less(last, y) {
        assert y in front + [x];
      }
      AppendSorts(less, init, last);
    } else {
      NoneAboveLast(less, s);
      AppendSorts(less, s, x);
    }
  }

  lemma NoneAboveLast<T(!new)>(less: (T, T) -> bool, s: seq<T>)
    requires StrictWeakOrder(less) && SortedBy(less, s) && s != []
    ensures forall y <- s :: !less(s[|s| - 1], y)
    ensures forall x, y :: !less(x, s[|s| - 1]) && y in s ==> !less(x, y)
  {
  }

  lemma AppendSorts<T(!new)>(less: (T, T) -> bool, s: seq<T>, last: T)
    requires SortedBy(less, s) && forall y <- s :: !less(last, y)
    ensures SortedBy(less, s + [last])
  {
    assert forall i :: 0 <= i < |s| ==> s[i] in s;
  }

  lemma {:induction false} SortSorts<T(!new)>(less: (T, T) -> bool, s: seq<T>)
    requires StrictWeakOrder(less)
    ensures SortedBy(less, Sort(less, s)) && multiset(Sort(less, s)) == multiset(s)
  {
    if s != [] {
      var front := s[..|s| - 1];
      SortSorts(less, front);
      InsertSorts(less, Sort(less, front), s[|s| - 1]);
      InsertPermutes(less, Sort(less, front), s[|s| - 1]);
      assert s == front + [s[|s| - 1]];
    }
  }
}
