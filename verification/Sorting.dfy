/** Python's built-in `sorted`: a stable sort under a total preorder. */
module Sorting {

  ghost predicate TotalPreorder<T(!new)>(leq: (T, T) -> bool) {
    && (forall a, b :: leq(a, b) || leq(b, a))
    && (forall a, b, c :: leq(a, b) && leq(b, c) ==> leq(a, c))
  }

  function Insert<T>(x: T, s: seq<T>, leq: (T, T) -> bool): seq<T> {
    if |s| == 0 || leq(x, s[0]) then [x] + s else [s[0]] + Insert(x, s[1..], leq)
  }

  function Sorted<T>(s: seq<T>, leq: (T, T) -> bool): seq<T> {
    if |s| == 0 then [] else Insert(s[0], Sorted(s[1..], leq), leq)
  }

  ghost predicate Ordered<T>(s: seq<T>, leq: (T, T) -> bool) {
    forall i, j :: 0 <= i < j < |s| ==> leq(s[i], s[j])
  }

  lemma {:induction false} InsertMembers<T>(x: T, s: seq<T>, leq: (T, T) -> bool)
    ensures multiset(Insert(x, s, leq)) == multiset{x} + multiset(s)
    ensures forall k :: 0 <= k < |Insert(x, s, leq)| ==> Insert(x, s, leq)[k] == x || Insert(x, s, leq)[k] in s
  {
    if |s| > 0 && !leq(x, s[0]) {
      InsertMembers(x, s[1..], leq);
      assert s == [s[0]] + s[1..];
    }
  }

  lemma {:induction false} InsertOrdered<T(!new)>(x: T, s: seq<T>, leq: (T, T) -> bool)
    requires TotalPreorder(leq) && Ordered(s, leq)
    ensures Ordered(Insert(x, s, leq), leq)
  {
    if |s| > 0 && !leq(x, s[0]) {
      InsertOrdered(x, s[1..], leq);
      InsertMembers(x, s[1..], leq);
    }
  }

  /** `sorted(s)` is ordered and is a rearrangement of `s`. */
  lemma {:induction false} SortedCorrect<T(!new)>(s: seq<T>, leq: (T, T) -> bool)
    requires TotalPreorder(leq)
    ensures Ordered(Sorted(s, leq), leq)
    ensures multiset(Sorted(s, leq)) == multiset(s)
  {
    if |s| > 0 {
      SortedCorrect(s[1..], leq);
      InsertOrdered(s[0], Sorted(s[1..], leq), leq);
      InsertMembers(s[0], Sorted(s[1..], leq), leq);
      assert s == [s[0]] + s[1..];
    }
  }

  ghost predicate Distinct<T(!new)>(s: seq<T>) {
    forall i, j :: 0 <= i < j < |s| ==> s[i] != s[j]
  }

  lemma {:induction false} InsertDistinct<T(!new)>(x: T, s: seq<T>, leq: (T, T) -> bool)
    requires Distinct(s) && x !in s
    ensures Distinct(Insert(x, s, leq))
    ensures forall y :: y in Insert(x, s, leq) <==> y == x || y in s
  {
    if |s| > 0 && !leq(x, s[0]) {
      InsertDistinct(x, s[1..], leq);
      assert s == [s[0]] + s[1..];
      var rest := Insert(x, s[1..], leq);
      assert s[0] !in rest;
    }
  }

  /** Sorting keeps the entries, and keeps them distinct. */
  lemma {:induction false} SortedDistinct<T(!new)>(s: seq<T>, leq: (T, T) -> bool)
    requires Distinct(s)
    ensures Distinct(Sorted(s, leq))
    ensures forall y :: y in Sorted(s, leq) <==> y in s
  {
    if |s| > 0 {
      SortedDistinct(s[1..], leq);
      assert s == [s[0]] + s[1..];
      assert s[0] !in s[1..];
      InsertDistinct(s[0], Sorted(s[1..], leq), leq);
    }
  }
}
