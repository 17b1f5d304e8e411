/**
 * OperationHistory: the in-memory list of operations already priced, with
 * deduplicating insertion and the weekly query the private-withdraw rule
 * uses.
 */
module History {
  import opened Calendar
  import opened OperationModel

  /** isSameOperation: equal date text, user, types, amount and currency. */
  predicate IsSameOperation(a: Operation, b: Operation) {
    && GetDate(a) == GetDate(b)
    && a.userId == b.userId
    && GetUserType(a) == GetUserType(b)
    && GetOperationType(a) == GetOperationType(b)
    && a.amount == b.amount
    && a.currency == b.currency
  }

  /** For operations the constructor accepts, sameness is plain equality. */
  lemma SameOperationIsEquality(a: Operation, b: Operation)
    requires 0 <= a.date.year <= 9999 && 0 <= b.date.year <= 9999
    ensures IsSameOperation(a, b) <==> a == b
  {
    FormatDateInjective(a.date, b.date);
  }

  predicate ContainsSame(ops: seq<Operation>, op: Operation) {
    exists k :: 0 <= k < |ops| && IsSameOperation(ops[k], op)
  }

  /** The list addOperation leaves behind: unchanged if a same operation is stored, else `op` appended. */
  function Record(ops: seq<Operation>, op: Operation): seq<Operation> {
    if ContainsSame(ops, op) then ops else ops + [op]
  }

  predicate NoDuplicates(ops: seq<Operation>) {
    forall i, j :: 0 <= i < j < |ops| ==> !IsSameOperation(ops[i], ops[j])
  }

  /** Recording keeps the list free of same operations. */
  lemma RecordKeepsNoDuplicates(ops: seq<Operation>, op: Operation)
    requires NoDuplicates(ops)
    ensures NoDuplicates(Record(ops, op))
  {
    if !ContainsSame(ops, op) {
      var r := ops + [op];
      forall i, j | 0 <= i < j < |r| ensures !IsSameOperation(r[i], r[j]) {
        if j == |ops| {
          assert !IsSameOperation(ops[i], op);
        }
      }
    }
  }

  /** Recording the same operation twice is recording it once. */
  lemma RecordIdempotent(ops: seq<Operation>, op: Operation)
    ensures Record(Record(ops, op), op) == Record(ops, op)
  {
    if !ContainsSame(ops, op) {
      var r := ops + [op];
      assert IsSameOperation(r[|ops|], op);
    }
  }

  /**
   * The bucket key of getWeeklyOperations: DateTime::format('Y') paired with
   * DateTime::format('W'), that is the calendar year with the ISO week.
   */
  function BucketKey(d: Date): (int, int) {
    (d.year, IsoWeek(d))
  }

  /** The filter of getWeeklyOperations. The reference operation's own types are not looked at. */
  predicate InBucket(op: Operation, ref: Operation) {
    && op.userId == ref.userId
    && op.userType == Private
    && op.operationType == Withdraw
    && BucketKey(op.date) == BucketKey(ref.date)
  }

  /** array_filter: the stored operations in `ref`'s bucket, in storage order. */
  function Filter(ops: seq<Operation>, ref: Operation): (r: seq<Operation>)
    ensures forall x :: x in r <==> x in ops && InBucket(x, ref)
  {
    if ops == [] then []
    else
      var init := Filter(ops[..|ops| - 1], ref);
      var last := ops[|ops| - 1];
      assert ops == ops[..|ops| - 1] + [last];
      if InBucket(last, ref) then init + [last] else init
  }

  /** array_filter works element by element: filtering a concatenation concatenates the filtered parts. */
  lemma {:induction false} FilterAppend(a: seq<Operation>, b: seq<Operation>, ref: Operation)
    ensures Filter(a + b, ref) == Filter(a, ref) + Filter(b, ref)
    decreases |b|
  {
    if b == [] {
      assert a + b == a;
    } else {
      var b', last := b[..|b| - 1], b[|b| - 1];
      assert (a + b)[..|a + b| - 1] == a + b';
      assert (a + b)[|a + b| - 1] == last;
      FilterAppend(a, b', ref);
    }
  }

  /** The usort comparator: date, then user id. */
  predicate Precedes(a: Operation, b: Operation) {
    || DayNumber(a.date) < DayNumber(b.date)
    || (DayNumber(a.date) == DayNumber(b.date) && a.userId <= b.userId)
  }

  predicate Sorted(s: seq<Operation>) {
    forall i, j :: 0 <= i < j < |s| ==> Precedes(s[i], s[j])
  }

  /** Every element of a sequence made of `init` and `x` comes no later than a bound of both. */
  lemma AllPrecede(front: seq<Operation>, init: seq<Operation>, x: Operation, bound: Operation)
    requires multiset(front) == multiset(init) + multiset{x}
    requires forall k :: 0 <= k < |init| ==> Precedes(init[k], bound)
    requires Precedes(x, bound)
    ensures forall i :: 0 <= i < |front| ==> Precedes(front[i], bound)
  {
    forall i | 0 <= i < |front| ensures Precedes(front[i], bound) {
      assert front[i] in multiset(front);
      if front[i] != x {
        assert front[i] in multiset(init);
        var k :| 0 <= k < |init| && init[k] == front[i];
      }
    }
  }

  /** Inserts `x` after every element that does not come after it. */
  function Insert(s: seq<Operation>, x: Operation): (r: seq<Operation>)
    requires Sorted(s)
    ensures Sorted(r)
    ensures multiset(r) == multiset(s) + multiset{x}
  {
    if s == [] then [x]
    else
      var init, last := s[..|s| - 1], s[|s| - 1];
      assert s == init + [last];
      if Precedes(last, x) then s + [x]
      else
        var front := Insert(init, x);
        AllPrecede(front, init, x, last);
        front + [last]
  }

  /** The order usort gives (PHP 8 sorts stably): by date, then user id. */
  function SortByDate(s: seq<Operation>): (r: seq<Operation>)
    ensures Sorted(r)
    ensures multiset(r) == multiset(s)
  {
    if s == [] then []
    else
      assert s == s[..|s| - 1] + [s[|s| - 1]];
      Insert(SortByDate(s[..|s| - 1]), s[|s| - 1])
  }

  /** The result of getWeeklyOperations over the stored list `ops`. */
  function WeeklyBucket(ops: seq<Operation>, ref: Operation): seq<Operation> {
    SortByDate(Filter(ops, ref))
  }

  /** The bucket holds exactly the stored operations of `ref`'s bucket, as a sorted permutation of the filtered list. */
  lemma WeeklyBucketIsSortedFilter(ops: seq<Operation>, ref: Operation)
    ensures Sorted(WeeklyBucket(ops, ref))
    ensures multiset(WeeklyBucket(ops, ref)) == multiset(Filter(ops, ref))
    ensures forall x :: x in WeeklyBucket(ops, ref) <==> x in ops && InBucket(x, ref)
  {
    var f := Filter(ops, ref);
    var w := WeeklyBucket(ops, ref);
    forall x ensures x in w <==> x in f {
      assert x in w <==> x in multiset(w);
      assert x in f <==> x in multiset(f);
    }
  }

  /** Dates in different ISO weeks never share a bucket. */
  lemma DifferentIsoWeeksNeverShareBucket(ops: seq<Operation>, ref: Operation, x: Operation)
    requires IsoWeek(x.date) != IsoWeek(ref.date)
    ensures x !in WeeklyBucket(ops, ref)
  {
    WeeklyBucketIsSortedFilter(ops, ref);
  }

  /** Dates in different calendar years never share a bucket, even inside one ISO week. */
  lemma DifferentYearsNeverShareBucket(ops: seq<Operation>, ref: Operation, x: Operation)
    requires x.date.year != ref.date.year
    ensures x !in WeeklyBucket(ops, ref)
  {
    WeeklyBucketIsSortedFilter(ops, ref);
  }

  /** 2014-12-31 is a Wednesday whose Thursday is 2015-01-01. */
  lemma LastDayOf2014()
    ensures DayNumber(Ymd(2014, 12, 31)) == 735963 && Weekday(Ymd(2014, 12, 31)) == 3
    ensures IsoWeekYear(Ymd(2014, 12, 31)) == 2015 && IsoWeek(Ymd(2014, 12, 31)) == 1
  {
    assert DaysBeforeYear(2014) == 735599;
    assert DaysBeforeYear(2015) == 735964;
    assert DayNumber(Ymd(2014, 12, 31)) == 735963;
    assert Weekday(Ymd(2014, 12, 31)) == 3;
    assert IsoWeekYear(Ymd(2014, 12, 31)) == 2015;
  }

  /** 2015-01-01 is the first Thursday of 2015. */
  lemma FirstDayOf2015()
    ensures DayNumber(Ymd(2015, 1, 1)) == 735964 && Weekday(Ymd(2015, 1, 1)) == 4
    ensures IsoWeekYear(Ymd(2015, 1, 1)) == 2015 && IsoWeek(Ymd(2015, 1, 1)) == 1
  {
    assert DaysBeforeYear(2015) == 735964;
    assert DayNumber(Ymd(2015, 1, 1)) == 735964;
    assert Weekday(Ymd(2015, 1, 1)) == 4;
    FirstThursdayInWeekOne(Ymd(2015, 1, 1));
  }

  /** 2014-12-31 and 2015-01-01 lie in ISO week 1 of 2015, yet their bucket keys differ. */
  lemma YearEndSplitsIsoWeek(newYearsEve: Date, newYearsDay: Date)
    requires newYearsEve == Ymd(2014, 12, 31) && newYearsDay == Ymd(2015, 1, 1)
    ensures IsoWeekYear(newYearsEve) == IsoWeekYear(newYearsDay)
    ensures IsoWeek(newYearsEve) == IsoWeek(newYearsDay)
    ensures BucketKey(newYearsEve) != BucketKey(newYearsDay)
  {
    LastDayOf2014();
    FirstDayOf2015();
  }

  /**
   * The key joins dates a year apart: 2014-01-01 (ISO 2014-W01) and
   * 2014-12-31 (ISO 2015-W01) both have key (2014, 1).
   */
  lemma KeyJoinsDatesAYearApart()
    ensures BucketKey(Ymd(2014, 1, 1)) == BucketKey(Ymd(2014, 12, 31))
    ensures DayNumber(Ymd(2014, 12, 31)) - DayNumber(Ymd(2014, 1, 1)) == 364
    ensures IsoWeekYear(Ymd(2014, 1, 1)) != IsoWeekYear(Ymd(2014, 12, 31))
  {
    LastDayOf2014();
    var d := Ymd(2014, 1, 1);
    assert DaysBeforeYear(2014) == 735599;
    assert DaysBeforeYear(2015) == 735964;
    assert DayNumber(d) == 735599;
    assert Weekday(d) == 3;
    assert ThursdayOf(d) == 735600;
    assert IsoWeekYear(d) == 2014;
  }

  /** Filtering one more stored operation. */
  lemma FilterStep(ops: seq<Operation>, i: int, ref: Operation)
    requires 0 <= i < |ops|
    ensures Filter(ops[..i + 1], ref) ==
      Filter(ops[..i], ref) + (if InBucket(ops[i], ref) then [ops[i]] else [])
  {
    assert ops[..i + 1][..i] == ops[..i];
  }

  /** Sorting one more filtered operation. */
  lemma SortStep(s: seq<Operation>, j: int)
    requires 0 <= j < |s|
    ensures Sorted(SortByDate(s[..j]))
    ensures SortByDate(s[..j + 1]) == Insert(SortByDate(s[..j]), s[j])
  {
    assert s[..j + 1][..j] == s[..j];
  }

  class OperationHistory {
    var operations: seq<Operation>

    ghost predicate Valid()
      reads this
    {
      NoDuplicates(operations)
    }

    constructor ()
      ensures Valid() && operations == []
    {
      operations := [];
    }

    /** addOperation: a linear search for a same operation, then an append. */
    method AddOperation(op: Operation)
      requires Valid()
      modifies this
      ensures Valid()
      ensures operations == Record(old(operations), op)
    {
      RecordKeepsNoDuplicates(operations, op);
      var i := 0;
      while i < |operations|
        invariant 0 <= i <= |operations|
        invariant forall k :: 0 <= k < i ==> !IsSameOperation(operations[k], op)
      {
        if IsSameOperation(operations[i], op) {
          return;
        }
        i := i + 1;
      }
      operations := operations + [op];
    }

    /** getWeeklyOperations: filter a snapshot of the list, then sort it; the list is not changed. */
    method GetWeeklyOperations(op: Operation) returns (weekly: seq<Operation>)
      ensures weekly == WeeklyBucket(operations, op)
      ensures Sorted(weekly)
      ensures multiset(weekly) == multiset(Filter(operations, op))
      ensures forall x :: x in weekly <==> x in operations && InBucket(x, op)
    {
      var filtered := [];
      var i := 0;
      while i < |operations|
        invariant 0 <= i <= |operations|
        invariant filtered == Filter(operations[..i], op)
      {
        FilterStep(operations, i, op);
        if InBucket(operations[i], op) {
          filtered := filtered + [operations[i]];
        }
        i := i + 1;
      }
      assert operations[..i] == operations;
      weekly := [];
      var j := 0;
      while j < |filtered|
        invariant 0 <= j <= |filtered|
        invariant weekly == SortByDate(filtered[..j])
      {
        SortStep(filtered, j);
        weekly := Insert(weekly, filtered[j]);
        j := j + 1;
      }
      assert filtered[..j] == filtered;
      WeeklyBucketIsSortedFilter(operations, op);
    }
  }
}
