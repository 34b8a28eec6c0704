/** Small shared vocabulary: optional values, results, and Python's list slicing. */
module Common {

  datatype Option<+T> = None | Some(value: T) {
    function GetOr(default: T): T {
      if Some? then value else default
    }
  }

  datatype Result<+T, +E> = Ok(value: T) | Err(error: E)

  function Max(a: int, b: int): int {
    if a < b then b else a
  }

  /** The last `n` elements of `s`, or all of `s` when it is shorter. */
  function LastN<T>(s: seq<T>, n: nat): seq<T> {
    if |s| <= n then s else s[|s| - n..]
  }

  /** Python's `s[-k:]` for every integer `k`: a start of `-k`, counted from the end when negative
      and clamped to the list. */
  function SliceFromEnd<T>(s: seq<T>, k: int): seq<T> {
    var start := if k > 0 then Max(|s| - k, 0) else if -k < |s| then -k else |s|;
    s[start..]
  }

  /** Cutting to the last `n` before and after an append is the same as cutting once after it. */
  lemma LastNAppend<T>(s: seq<T>, x: T, n: nat)
    ensures LastN(LastN(s, n) + [x], n) == LastN(s + [x], n)
  {
  }

  /** A set whose members are the entries of a list without repetition has as many members as the list
      has entries. */
  lemma {:induction false} DistinctCount<T>(s: seq<T>, members: set<T>)
    requires forall i, j :: 0 <= i < j < |s| ==> s[i] != s[j]
    requires forall x :: x in members <==> x in s
    ensures |members| == |s|
  {
    if |s| == 0 {
      assert members == {};
    } else {
      var x := s[|s| - 1];
      var shorter := s[..|s| - 1];
      assert s == shorter + [x];
      DistinctCount(shorter, members - {x});
    }
  }

  lemma Fewer<T>(small: set<T>, large: set<T>)
    requires small <= large
    ensures |small| <= |large|
  {
    assert large == small + (large - small);
  }

  lemma Member<T>(s: set<T>) returns (x: T)
    requires s != {}
    ensures x in s
  {
    x :| x in s;
  }

  /** A set of integers inside `[lo, hi)` has at most `hi - lo` members. */
  lemma {:induction false} BoundedCount(members: set<int>, lo: int, hi: int)
    requires lo <= hi
    requires forall k :: k in members ==> lo <= k < hi
    ensures |members| <= hi - lo
    decreases hi - lo
  {
    if lo == hi {
      assert members == {};
    } else {
      BoundedCount(members - {hi - 1}, lo, hi - 1);
    }
  }
}
