/**
 * `getHistoryPeriods` (app/api/history-periods/route.ts): the distinct years
 * of the user's month-history rows in ascending order, or the current year
 * alone when the user has none. The query's `distinct` and `orderBy` are
 * modelled by `DistinctAscending`.
 */
module HistoryPeriodsRoute {

  /** A month-history row; only the owner and the year matter here. */
  datatype MonthHistory = MonthHistory(userId: string, day: int, month: int, year: int, income: int, expense: int)

  /** Strictly ascending, hence also free of repeats. */
  predicate Ascending(s: seq<int>) {
    forall i, j :: 0 <= i < j < |s| ==> s[i] < s[j]
  }

  /** The years of `userId`'s rows, in table order (`where: { userId }`, `select: { year }`). */
  function UserYears(rows: seq<MonthHistory>, userId: string): (years: seq<int>)
    ensures forall y :: y in years <==> exists k :: 0 <= k < |rows| && rows[k].userId == userId && rows[k].year == y
  {
    if rows == [] then []
    else
      var rest := UserYears(rows[1..], userId);
      assert forall k :: 1 <= k < |rows| ==> rows[k] == rows[1..][k - 1];
      if rows[0].userId == userId then [rows[0].year] + rest else rest
  }

  /** `y` placed into an ascending sequence, unless it is already there. */
  function Insert(s: seq<int>, y: int): (r: seq<int>)
    requires Ascending(s)
    ensures Ascending(r)
    ensures forall x :: x in r <==> x in s || x == y
  {
    if s == [] then [y]
    else if y < s[0] then [y] + s
    else if y == s[0] then s
    else
      var tail := Insert(s[1..], y);
      assert forall x :: x in tail ==> s[0] < x;
      var r := [s[0]] + tail;
      assert forall i :: 1 <= i < |r| ==> r[i] == tail[i - 1] && tail[i - 1] in tail;
      r
  }

  /** `distinct: ['year']` with `orderBy: { year: 'asc' }`. */
  function DistinctAscending(years: seq<int>): (r: seq<int>)
    ensures Ascending(r)
    ensures forall x :: x in r <==> x in years
  {
    if years == [] then [] else Insert(DistinctAscending(years[1..]), years[0])
  }

  /** The route's answer for `userId` when the clock reads `currentYear`. */
  function GetHistoryPeriods(rows: seq<MonthHistory>, userId: string, currentYear: int): (periods: seq<int>)
    ensures periods != []
    ensures Ascending(periods)
    ensures (forall k :: 0 <= k < |rows| ==> rows[k].userId != userId) ==> periods == [currentYear]
    ensures (exists k :: 0 <= k < |rows| && rows[k].userId == userId) ==>
      forall y :: y in periods <==> exists k :: 0 <= k < |rows| && rows[k].userId == userId && rows[k].year == y
  {
    var years := DistinctAscending(UserYears(rows, userId));
    assert forall k :: 0 <= k < |rows| && rows[k].userId == userId ==> rows[k].year in years;
    if |years| == 0 then
      [currentYear]
    else
      assert years[0] in years;
      years
  }

  /**
   * Two ascending sequences with the same elements are equal: the ascending
   * list of a user's distinct years is unique, so the route's answer is the
   * only one its contract allows.
   */
  lemma {:induction false} AscendingUnique(a: seq<int>, b: seq<int>)
    requires Ascending(a) && Ascending(b)
    requires forall x :: x in a <==> x in b
    ensures a == b
  {
    if a != [] {
      assert a[0] in a;
    }
    if b != [] {
      assert b[0] in b;
    }
    if a != [] && b != [] {
      assert a[0] in b && b[0] in a;
      assert a[0] == b[0];
      forall x ensures x in a[1..] <==> x in b[1..] {
        if x in a[1..] {
          assert x in b && x != b[0];
        }
        if x in b[1..] {
          assert x in a && x != a[0];
        }
      }
      AscendingUnique(a[1..], b[1..]);
      assert a == [a[0]] + a[1..];
      assert b == [b[0]] + b[1..];
    }
  }

  /**
   * For a user with rows, the answer is the one ascending list of exactly
   * that user's years.
   */
  lemma PeriodsDetermined(rows: seq<MonthHistory>, userId: string, currentYear: int, s: seq<int>)
    requires exists k :: 0 <= k < |rows| && rows[k].userId == userId
    requires Ascending(s)
    requires forall y :: y in s <==> exists k :: 0 <= k < |rows| && rows[k].userId == userId && rows[k].year == y
    ensures GetHistoryPeriods(rows, userId, currentYear) == s
  {
    AscendingUnique(GetHistoryPeriods(rows, userId, currentYear), s);
  }

  /** A row of another user, wherever it sits in the table, does not change the answer. */
  lemma OtherUsersIgnored(a: seq<MonthHistory>, other: MonthHistory, b: seq<MonthHistory>, userId: string, currentYear: int)
    requires other.userId != userId
    ensures GetHistoryPeriods(a + [other] + b, userId, currentYear) == GetHistoryPeriods(a + b, userId, currentYear)
  {
    UserYearsSplit(a + [other], b, userId);
    UserYearsSplit(a, [other], userId);
    UserYearsSplit(a, b, userId);
    assert UserYears([other], userId) == [] by {
      assert UserYears([other][1..], userId) == [];
    }
    assert UserYears(a + [other] + b, userId) == UserYears(a + b, userId);
  }

  /** The years of two tables one after the other are the years of each, in turn. */
  lemma {:induction false} UserYearsSplit(a: seq<MonthHistory>, b: seq<MonthHistory>, userId: string)
    ensures UserYears(a + b, userId) == UserYears(a, userId) + UserYears(b, userId)
  {
    if a == [] {
      assert a + b == b;
    } else {
      assert (a + b)[1..] == a[1..] + b;
      UserYearsSplit(a[1..], b, userId);
    }
  }
}
