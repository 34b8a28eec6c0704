/** The debouncer: a bounded window of frame results and its sort-based gap test. */
module Debounce {
  import opened Common
  import opened Sorting

  datatype FrameRecord = FrameRecord(frameId: int, isElevated: bool)

  const DEFAULT_MAX_SIZE := 20
  const DEFAULT_MAX_GAP := 2

  function ById(a: FrameRecord, b: FrameRecord): bool {
    a.frameId <= b.frameId
  }

  function Elevated(records: seq<FrameRecord>): seq<FrameRecord> {
    if |records| == 0 then []
    else (if records[0].isElevated then [records[0]] else []) + Elevated(records[1..])
  }

  /** The test as the program performs it: sort the elevated records by id, compare neighbours. */
  predicate AdjacentGapWithin(records: seq<FrameRecord>, maxGap: int) {
    var elevated := Sorted(Elevated(records), ById);
    if |elevated| < 2 then false
    else exists i | 0 <= i < |elevated| - 1 :: elevated[i + 1].frameId - elevated[i].frameId <= maxGap
  }

  ghost predicate Near(a: FrameRecord, b: FrameRecord, maxGap: int) {
    -maxGap <= a.frameId - b.frameId <= maxGap
  }

  /** What the test is for: two different records, both elevated, with ids at most `maxGap` apart. */
  ghost predicate AnyTwoWithin(records: seq<FrameRecord>, maxGap: int) {
    exists i, j :: 0 <= i < j < |records| && records[i].isElevated && records[j].isElevated
                   && Near(records[i], records[j], maxGap)
  }

  /** The records left after every result in `log` was added in turn, with the program's slice. */
  function Retained(log: seq<FrameRecord>, maxSize: int): seq<FrameRecord> {
    if |log| == 0 then []
    else AfterAdd(Retained(log[..|log| - 1], maxSize), log[|log| - 1], maxSize)
  }

  function AfterAdd(records: seq<FrameRecord>, r: FrameRecord, maxSize: int): seq<FrameRecord> {
    var grown := records + [r];
    if |grown| > maxSize then SliceFromEnd(grown, maxSize) else grown
  }

  class DetectionHistory {
    var records: seq<FrameRecord>
    const maxSize: int
    /** Every result ever added, oldest first. */
    ghost var log: seq<FrameRecord>

    ghost predicate Valid()
      reads this
    {
      records == Retained(log, maxSize)
    }

    constructor (maxSize: int := DEFAULT_MAX_SIZE)
      ensures Valid() && log == [] && this.maxSize == maxSize
    {
      this.records := [];
      this.maxSize := maxSize;
      this.log := [];
    }

    method Add(frameId: int, isElevated: bool)
      requires Valid()
      modifies this
      ensures Valid()
      ensures log == old(log) + [FrameRecord(frameId, isElevated)]
      ensures maxSize >= 1 ==> records == LastN(log, maxSize)
    {
      records := records + [FrameRecord(frameId, isElevated)];
      if |records| > maxSize {
        records := SliceFromEnd(records, maxSize);
      }
      log := log + [FrameRecord(frameId, isElevated)];
      assert log[..|log| - 1] == old(log);
      RetainedIsWindow(log, maxSize);
    }

    /** For every window size of at least one, the answer is about the last `maxSize` results added,
        in whatever order their ids came. */
    method IsConsecutiveElevated(maxGap: int := DEFAULT_MAX_GAP) returns (actionable: bool)
      requires Valid()
      ensures actionable <==> AdjacentGapWithin(records, maxGap)
      ensures actionable <==> AnyTwoWithin(records, maxGap)
      ensures maxSize >= 1 ==> (actionable <==> AnyTwoWithin(LastN(log, maxSize), maxGap))
    {
      actionable := AdjacentGapWithin(records, maxGap);
      AdjacentGapIffAnyTwo(records, maxGap);
      RetainedIsWindow(log, maxSize);
    }
  }

  /** Exactly when the kept records are the most recent `max(maxSize, 0)` results: always, except
      that a capacity of zero keeps everything (`[-0:]` is the whole list). */
  lemma {:induction false} RetainedIsWindow(log: seq<FrameRecord>, maxSize: int)
    ensures Retained(log, maxSize) == LastN(log, Max(maxSize, 0)) <==> maxSize != 0 || log == []
    ensures maxSize == 0 ==> Retained(log, maxSize) == log
  {
    if |log| == 0 {
    } else {
      var shorter, r := log[..|log| - 1], log[|log| - 1];
      RetainedIsWindow(shorter, maxSize);
      assert shorter + [r] == log;
      if maxSize > 0 {
        LastNAppend(shorter, r, maxSize);
      }
    }
  }

  /** A record near some entry of a list, and a list with two near entries, by recursion. */
  ghost predicate NearSome(r: FrameRecord, s: seq<FrameRecord>, maxGap: int) {
    |s| > 0 && (Near(r, s[0], maxGap) || NearSome(r, s[1..], maxGap))
  }

  ghost predicate SomePair(s: seq<FrameRecord>, maxGap: int) {
    |s| > 0 && (NearSome(s[0], s[1..], maxGap) || SomePair(s[1..], maxGap))
  }

  lemma {:induction false} InsertKeepsNear(r: FrameRecord, x: FrameRecord, s: seq<FrameRecord>, maxGap: int)
    ensures NearSome(r, Insert(x, s, ById), maxGap) <==> Near(r, x, maxGap) || NearSome(r, s, maxGap)
  {
    if |s| == 0 || ById(x, s[0]) {
      assert ([x] + s)[1..] == s;
    } else {
      InsertKeepsNear(r, x, s[1..], maxGap);
      assert ([s[0]] + Insert(x, s[1..], ById))[1..] == Insert(x, s[1..], ById);
    }
  }

  lemma {:induction false} InsertKeepsPairs(x: FrameRecord, s: seq<FrameRecord>, maxGap: int)
    ensures SomePair(Insert(x, s, ById), maxGap) <==> NearSome(x, s, maxGap) || SomePair(s, maxGap)
  {
    if |s| == 0 || ById(x, s[0]) {
      assert ([x] + s)[1..] == s;
    } else {
      InsertKeepsPairs(x, s[1..], maxGap);
      InsertKeepsNear(s[0], x, s[1..], maxGap);
      assert ([s[0]] + Insert(x, s[1..], ById))[1..] == Insert(x, s[1..], ById);
    }
  }

  lemma {:induction false} SortKeepsNear(r: FrameRecord, s: seq<FrameRecord>, maxGap: int)
    ensures NearSome(r, Sorted(s, ById), maxGap) <==> NearSome(r, s, maxGap)
  {
    if |s| > 0 {
      SortKeepsNear(r, s[1..], maxGap);
      InsertKeepsNear(r, s[0], Sorted(s[1..], ById), maxGap);
    }
  }

  /** Sorting neither makes nor loses a near pair. */
  lemma {:induction false} SortKeepsPairs(s: seq<FrameRecord>, maxGap: int)
    ensures SomePair(Sorted(s, ById), maxGap) <==> SomePair(s, maxGap)
  {
    if |s| > 0 {
      SortKeepsPairs(s[1..], maxGap);
      SortKeepsNear(s[0], s[1..], maxGap);
      InsertKeepsPairs(s[0], Sorted(s[1..], ById), maxGap);
    }
  }

  lemma {:induction false} NearSomeByIndex(r: FrameRecord, records: seq<FrameRecord>, maxGap: int)
    ensures NearSome(r, Elevated(records), maxGap)
       <==> exists k :: 0 <= k < |records| && records[k].isElevated && Near(r, records[k], maxGap)
  {
    if |records| > 0 {
      var rest := records[1..];
      NearSomeByIndex(r, rest, maxGap);
      assert forall k :: 0 < k < |records| ==> records[k] == rest[k - 1];
      if records[0].isElevated {
        assert Elevated(records)[1..] == Elevated(rest);
      } else {
        assert Elevated(records) == Elevated(rest);
      }
      if k :| 0 <= k < |rest| && rest[k].isElevated && Near(r, rest[k], maxGap) {
        assert records[k + 1].isElevated && Near(r, records[k + 1], maxGap);
      }
    }
  }

  /** Near pairs of the elevated records, by their places among all the records. */
  lemma {:induction false} SomePairByIndex(records: seq<FrameRecord>, maxGap: int)
    ensures SomePair(Elevated(records), maxGap) <==> AnyTwoWithin(records, maxGap)
  {
    if |records| > 0 {
      var rest := records[1..];
      SomePairByIndex(rest, maxGap);
      NearSomeByIndex(records[0], rest, maxGap);
      assert forall k :: 0 < k < |records| ==> records[k] == rest[k - 1];
      if records[0].isElevated {
        assert Elevated(records)[1..] == Elevated(rest);
      } else {
        assert Elevated(records) == Elevated(rest);
      }
      AnyTwoSplit(records, maxGap);
    }
  }

  lemma AnyTwoSplit(records: seq<FrameRecord>, maxGap: int)
    requires |records| > 0
    ensures AnyTwoWithin(records, maxGap)
       <==> AnyTwoWithin(records[1..], maxGap)
            || (records[0].isElevated
                && exists k :: 0 <= k < |records| - 1 && records[1..][k].isElevated
                               && Near(records[0], records[1..][k], maxGap))
  {
  }

  /** In an ordered list some two entries are near exactly when some neighbours are. */
  lemma {:induction false} NeighboursSuffice(s: seq<FrameRecord>, maxGap: int)
    requires Ordered(s, ById)
    ensures SomePair(s, maxGap)
       <==> exists i :: 0 <= i < |s| - 1 && s[i + 1].frameId - s[i].frameId <= maxGap
  {
    if |s| > 1 {
      var rest := s[1..];
      NeighboursSuffice(rest, maxGap);
      assert forall k :: 0 < k < |s| ==> s[k] == rest[k - 1];
      assert forall k :: 0 < k < |s| ==> ById(s[0], s[k]);
      NearestIsNext(s[0], rest, maxGap);
      if i :| 0 <= i < |rest| - 1 && rest[i + 1].frameId - rest[i].frameId <= maxGap {
        assert s[i + 2].frameId - s[i + 1].frameId <= maxGap;
      }
    }
  }

  lemma {:induction false} NearestIsNext(r: FrameRecord, s: seq<FrameRecord>, maxGap: int)
    requires |s| > 0 && Ordered(s, ById) && ById(r, s[0])
    ensures NearSome(r, s, maxGap) <==> s[0].frameId - r.frameId <= maxGap
  {
    if |s| > 1 {
      assert ById(s[0], s[1]);
      NearestIsNext(r, s[1..], maxGap);
    }
  }

  /** The sorted neighbour test decides "any two elevated records within `maxGap`", for every
      sequence of records, in any order, with repeated ids, and for every gap. */
  lemma AdjacentGapIffAnyTwo(records: seq<FrameRecord>, maxGap: int)
    ensures AdjacentGapWithin(records, maxGap) <==> AnyTwoWithin(records, maxGap)
  {
    var kept := Elevated(records);
    SortedCorrect(kept, ById);
    NeighboursSuffice(Sorted(kept, ById), maxGap);
    SortKeepsPairs(kept, maxGap);
    SomePairByIndex(records, maxGap);
  }

  /** The window's pairs by their places in the whole log. */
  lemma WindowByIndex(log: seq<FrameRecord>, maxSize: nat, maxGap: int)
    ensures AnyTwoWithin(LastN(log, maxSize), maxGap)
       <==> exists i, j :: Max(0, |log| - maxSize) <= i < j < |log| && log[i].isElevated && log[j].isElevated
                           && Near(log[i], log[j], maxGap)
  {
  }

  /** A result that is not elevated never makes the window actionable. */
  lemma QuietAdd(log: seq<FrameRecord>, r: FrameRecord, maxSize: nat, maxGap: int)
    requires !r.isElevated
    requires AnyTwoWithin(LastN(log + [r], maxSize), maxGap)
    ensures AnyTwoWithin(LastN(log, maxSize), maxGap)
  {
  }

  /** After `maxSize - 1` results that are not elevated, the window cannot hold two that are. */
  lemma QuietTail(log: seq<FrameRecord>, maxSize: nat, maxGap: int)
    requires forall k :: 0 <= k < |log| && k >= |log| - (maxSize - 1) ==> !log[k].isElevated
    ensures !AnyTwoWithin(LastN(log, maxSize), maxGap)
  {
  }
}
