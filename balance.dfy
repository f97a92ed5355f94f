/**
 * `getBalanceStats` (app/api/stats/balance/route.ts): the user's expense and
 * income totals over the transactions dated from `from` to `to`, both ends
 * included. The query groups the matching rows by type and sums their
 * amounts; a type with no group reads as 0. Decimal amounts are integers here.
 */
module BalanceRoute {

  type Time = int

  datatype Transaction = Transaction(userId: string, amount: int, kind: string, date: Time)

  const Expense: string := "despesa"
  const Income: string := "renda"

  datatype Balance = Balance(expense: int, income: int)

  /** The query's `where`: this user's rows with `from <= date <= to`. */
  predicate InWindow(t: Transaction, userId: string, from: Time, to: Time) {
    t.userId == userId && from <= t.date <= to
  }

  function Window(txs: seq<Transaction>, userId: string, from: Time, to: Time): (rows: seq<Transaction>)
    ensures forall t :: t in rows <==> t in txs && InWindow(t, userId, from, to)
  {
    if txs == [] then []
    else
      var rest := Window(txs[1..], userId, from, to);
      assert forall t :: t in txs <==> t == txs[0] || t in txs[1..];
      if InWindow(txs[0], userId, from, to) then [txs[0]] + rest else rest
  }

  /**
   * `groupBy: ['type']` with `_sum: { amount }`: one group per type present,
   * holding the sum of that type's amounts.
   */
  function GroupSums(rows: seq<Transaction>): (groups: map<string, int>)
    ensures forall kind :: kind in groups <==> exists k :: 0 <= k < |rows| && rows[k].kind == kind
    ensures forall kind :: kind in groups ==> groups[kind] == SumOfKind(rows, kind)
  {
    if rows == [] then map[]
    else
      var m := GroupSums(rows[1..]);
      assert forall k :: 1 <= k < |rows| ==> rows[k] == rows[1..][k - 1];
      if rows[0].kind in m then m[rows[0].kind := rows[0].amount + m[rows[0].kind]]
      else
        NoKindNoSum(rows[1..], rows[0].kind);
        m[rows[0].kind := rows[0].amount]
  }

  /** Sum of the amounts of the rows of one type. */
  function SumOfKind(rows: seq<Transaction>, kind: string): int {
    if rows == [] then 0
    else (if rows[0].kind == kind then rows[0].amount else 0) + SumOfKind(rows[1..], kind)
  }

  /**
   * The reference total, read off the transactions directly: the amounts of
   * this user's rows of this type dated inside the window.
   */
  function Total(txs: seq<Transaction>, userId: string, from: Time, to: Time, kind: string): int {
    if txs == [] then 0
    else
      (if InWindow(txs[0], userId, from, to) && txs[0].kind == kind then txs[0].amount else 0)
      + Total(txs[1..], userId, from, to, kind)
  }

  /** `totals.find((t) => t.type === kind)?._sum.amount || 0`: a group's sum, and 0 for a type without a group. */
  function Find(totals: map<string, int>, kind: string): (amount: int)
    ensures kind in totals ==> amount == totals[kind]
    ensures kind !in totals ==> amount == 0
  {
    if kind in totals then totals[kind] else 0
  }

  function GetBalanceStats(txs: seq<Transaction>, userId: string, from: Time, to: Time): (b: Balance)
    ensures b.expense == Total(txs, userId, from, to, Expense)
    ensures b.income == Total(txs, userId, from, to, Income)
  {
    var totals := GroupSums(Window(txs, userId, from, to));
    WindowTotal(txs, userId, from, to, Expense);
    WindowTotal(txs, userId, from, to, Income);
    GroupSumsFind(Window(txs, userId, from, to), Expense);
    GroupSumsFind(Window(txs, userId, from, to), Income);
    Balance(Find(totals, Expense), Find(totals, Income))
  }

  /** A type has a group exactly when some row has it, and the group holds that type's sum; a missing group reads as that (zero) sum. */
  lemma GroupSumsFind(rows: seq<Transaction>, kind: string)
    ensures kind in GroupSums(rows) <==> exists k :: 0 <= k < |rows| && rows[k].kind == kind
    ensures Find(GroupSums(rows), kind) == SumOfKind(rows, kind)
  {
    if kind !in GroupSums(rows) {
      NoKindNoSum(rows, kind);
    }
  }

  lemma {:induction false} NoKindNoSum(rows: seq<Transaction>, kind: string)
    requires forall k :: 0 <= k < |rows| ==> rows[k].kind != kind
    ensures SumOfKind(rows, kind) == 0
  {
    if rows != [] {
      NoKindNoSum(rows[1..], kind);
    }
  }

  /** Grouping the filtered rows gives the reference total. */
  lemma {:induction false} WindowTotal(txs: seq<Transaction>, userId: string, from: Time, to: Time, kind: string)
    ensures SumOfKind(Window(txs, userId, from, to), kind) == Total(txs, userId, from, to, kind)
  {
    if txs != [] {
      WindowTotal(txs[1..], userId, from, to, kind);
    }
  }

  /** With no matching transaction a field is 0. */
  lemma {:induction false} NoMatchIsZero(txs: seq<Transaction>, userId: string, from: Time, to: Time, kind: string)
    requires forall k :: 0 <= k < |txs| ==> !(InWindow(txs[k], userId, from, to) && txs[k].kind == kind)
    ensures Total(txs, userId, from, to, kind) == 0
  {
    if txs != [] {
      NoMatchIsZero(txs[1..], userId, from, to, kind);
    }
  }

  lemma {:induction false} TotalSplit(a: seq<Transaction>, b: seq<Transaction>, userId: string, from: Time, to: Time, kind: string)
    ensures Total(a + b, userId, from, to, kind) == Total(a, userId, from, to, kind) + Total(b, userId, from, to, kind)
  {
    if a == [] {
      assert a + b == b;
    } else {
      assert (a + b)[1..] == a[1..] + b;
      TotalSplit(a[1..], b, userId, from, to, kind);
    }
  }

  /**
   * A transaction of another user, dated outside the window, or of another
   * type leaves both fields as they were, wherever it sits in the table.
   */
  lemma NonMatchingIgnored(a: seq<Transaction>, t: Transaction, b: seq<Transaction>, userId: string, from: Time, to: Time)
    requires t.userId != userId || t.date < from || to < t.date || (t.kind != Expense && t.kind != Income)
    ensures GetBalanceStats(a + [t] + b, userId, from, to) == GetBalanceStats(a + b, userId, from, to)
  {
    TotalSplit(a + [t], b, userId, from, to, Expense);
    TotalSplit(a, [t], userId, from, to, Expense);
    TotalSplit(a, b, userId, from, to, Expense);
    TotalSplit(a + [t], b, userId, from, to, Income);
    TotalSplit(a, [t], userId, from, to, Income);
    TotalSplit(a, b, userId, from, to, Income);
  }

  /** Adding a matching transaction raises its own type's field by its amount and leaves the other. */
  lemma MatchingAdds(txs: seq<Transaction>, t: Transaction, userId: string, from: Time, to: Time)
    requires InWindow(t, userId, from, to) && (t.kind == Expense || t.kind == Income)
    ensures var before := GetBalanceStats(txs, userId, from, to);
      var after := GetBalanceStats(txs + [t], userId, from, to);
      && after.expense == before.expense + (if t.kind == Expense then t.amount else 0)
      && after.income == before.income + (if t.kind == Income then t.amount else 0)
  {
    TotalSplit(txs, [t], userId, from, to, Expense);
    TotalSplit(txs, [t], userId, from, to, Income);
  }
}
