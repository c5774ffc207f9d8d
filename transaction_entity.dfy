/**
 * The `Transaction` entity (one row of the transactions table) and the row selections
 * that the service's SQL queries filter by.
 */
module TransactionEntity {
  import opened Wrappers

  type MonthNumber = m: int | 1 <= m <= 12 witness 1
  type DayNumber = d: int | 1 <= d <= 31 witness 1

  /** The calendar date of `createdAt`; time of day and time zone are not modelled. */
  datatype Date = Date(year: nat, month: MonthNumber, day: DayNumber)

  /**
   * One stored transaction; `kind` is the `type` column. `userId` and `categoryId` are
   * the foreign-key columns behind the `user` and `category` relations; `None` is a NULL
   * category.
   */
  datatype Transaction = Transaction(
    id: int,
    kind: string,
    amount: int,
    createdAt: Date,
    userId: int,
    categoryId: Option<int>)

  /** What `create` receives: every column but the generated id; `createdAt` defaults to the clock. */
  datatype NewTransaction = NewTransaction(
    kind: string,
    amount: int,
    createdAt: Option<Date>,
    userId: int,
    categoryId: Option<int>)

  /** The row shape the transaction validator admits: an enumerated `type` and a positive amount. */
  predicate WellFormed(t: Transaction)
  {
    (t.kind == "income" || t.kind == "expense") && t.amount > 0
  }

  predicate AllWellFormed(rows: seq<Transaction>)
  {
    forall t :: t in rows ==> WellFormed(t)
  }

  predicate NoDuplicates<T(==)>(s: seq<T>)
  {
    forall i, j :: 0 <= i < j < |s| ==> s[i] != s[j]
  }

  /** The rows of `rows` that satisfy `p`, in table order (a SQL `WHERE`). */
  function Where(rows: seq<Transaction>, p: Transaction -> bool): (r: seq<Transaction>)
    ensures |r| <= |rows|
    ensures forall t :: t in r <==> t in rows && p(t)
  {
    if rows == [] then []
    else (if p(rows[0]) then [rows[0]] else []) + Where(rows[1..], p)
  }

  /** `SUM(transaction.amount)` over the given rows, with 0 for no rows. */
  function Total(rows: seq<Transaction>): int
  {
    if rows == [] then 0 else rows[0].amount + Total(rows[1..])
  }

  /** The `WHERE` conditions the queries use, as named predicates on one row. */
  function OwnedBy(userId: int): Transaction -> bool { (t: Transaction) => t.userId == userId }
  function KindIs(kind: string): Transaction -> bool { (t: Transaction) => t.kind == kind }
  function YearIs(year: int): Transaction -> bool { (t: Transaction) => t.createdAt.year == year }
  function MonthIs(month: int): Transaction -> bool { (t: Transaction) => t.createdAt.month == month }
  function CategoryIs(category: Option<int>): Transaction -> bool { (t: Transaction) => t.categoryId == category }

  function Owned(rows: seq<Transaction>, userId: int): seq<Transaction> { Where(rows, OwnedBy(userId)) }
  function OfType(rows: seq<Transaction>, kind: string): seq<Transaction> { Where(rows, KindIs(kind)) }
  function InYear(rows: seq<Transaction>, year: int): seq<Transaction> { Where(rows, YearIs(year)) }
  function InMonth(rows: seq<Transaction>, month: int): seq<Transaction> { Where(rows, MonthIs(month)) }
  function InCategory(rows: seq<Transaction>, category: Option<int>): seq<Transaction> { Where(rows, CategoryIs(category)) }

  lemma {:induction false} WhereAppend(a: seq<Transaction>, b: seq<Transaction>, p: Transaction -> bool)
    ensures Where(a + b, p) == Where(a, p) + Where(b, p)
  {
    if a != [] {
      assert (a + b)[1..] == a[1..] + b;
      WhereAppend(a[1..], b, p);
    } else {
      assert a + b == b;
    }
  }

  lemma {:induction false} TotalAppend(a: seq<Transaction>, b: seq<Transaction>)
    ensures Total(a + b) == Total(a) + Total(b)
  {
    if a != [] {
      assert (a + b)[1..] == a[1..] + b;
      TotalAppend(a[1..], b);
    } else {
      assert a + b == b;
    }
  }

  /** A selection none of whose rows pass is empty and sums to 0. */
  lemma NoneSelected(rows: seq<Transaction>, p: Transaction -> bool)
    requires forall t :: t in rows ==> !p(t)
    ensures Where(rows, p) == [] && Total(Where(rows, p)) == 0
  {
  }

  /** With positive amounts, a selection sums to at most the whole and is positive when non-empty. */
  lemma {:induction false} WhereTotalBounds(rows: seq<Transaction>, p: Transaction -> bool)
    requires forall t :: t in rows ==> t.amount > 0
    ensures 0 <= Total(Where(rows, p)) <= Total(rows)
    ensures Where(rows, p) != [] ==> Total(Where(rows, p)) > 0
  {
    if rows != [] {
      WhereTotalBounds(rows[1..], p);
      var head := if p(rows[0]) then [rows[0]] else [];
      TotalAppend(head, Where(rows[1..], p));
    }
  }

  lemma {:induction false} TotalPositive(rows: seq<Transaction>)
    requires forall t :: t in rows ==> t.amount > 0
    ensures rows != [] ==> Total(rows) > 0
    ensures Total(rows) >= 0
  {
    if rows != [] {
      TotalPositive(rows[1..]);
    }
  }
}
