/**
 * `TransactionsService`: CRUD over the transactions table and two of its read-only
 * aggregations (the dashboard summary and the per-category usage percentages). The
 * monthly series is in module `MonthlyTransactions`.
 */
module Transactions {
  import opened Wrappers
  import opened TransactionEntity

  /** A partial update: `None` leaves a column as it is; for `categoryId`, `Some(None)` sets NULL. */
  datatype TransactionPatch = TransactionPatch(
    kind: Option<string>,
    amount: Option<int>,
    createdAt: Option<Date>,
    userId: Option<int>,
    categoryId: Option<Option<int>>)

  /** `UPDATE ... SET` on one row: the supplied columns take the new values, the id never changes. */
  function ApplyPatch(t: Transaction, p: TransactionPatch): (r: Transaction)
    ensures r.id == t.id
  {
    Transaction(
      t.id,
      if p.kind.Some? then p.kind.value else t.kind,
      if p.amount.Some? then p.amount.value else t.amount,
      if p.createdAt.Some? then p.createdAt.value else t.createdAt,
      if p.userId.Some? then p.userId.value else t.userId,
      if p.categoryId.Some? then p.categoryId.value else t.categoryId)
  }

  /** Repeating an update changes nothing more: the patched row already holds every supplied column. */
  lemma ApplyPatchIdempotent(t: Transaction, p: TransactionPatch)
    ensures ApplyPatch(ApplyPatch(t, p), p) == ApplyPatch(t, p)
  {
  }

  /** `findOneBy({ id })`: the first row with that id, or `None` (null) when there is none. */
  function Find(rows: seq<Transaction>, id: int): (r: Option<Transaction>)
    ensures r.Some? ==> r.value in rows && r.value.id == id
    ensures r.None? <==> forall i :: 0 <= i < |rows| ==> rows[i].id != id
  {
    if rows == [] then None
    else if rows[0].id == id then Some(rows[0])
    else Find(rows[1..], id)
  }

  /** The position of the first row with that id. */
  function IndexOf(rows: seq<Transaction>, id: int): (r: Option<nat>)
    ensures r.Some? ==> r.value < |rows| && rows[r.value].id == id
    ensures r.Some? ==> forall i :: 0 <= i < r.value ==> rows[i].id != id
    ensures r.None? <==> forall i :: 0 <= i < |rows| ==> rows[i].id != id
  {
    if rows == [] then None
    else if rows[0].id == id then Some(0)
    else match IndexOf(rows[1..], id)
      case None => None
      case Some(k) => Some(k + 1)
  }

  predicate DistinctIds(rows: seq<Transaction>)
  {
    forall i, j :: 0 <= i < j < |rows| ==> rows[i].id != rows[j].id
  }

  /** The service over its repository: `rows` is the table, `nextId` the next generated key. */
  class TransactionsService {
    var rows: seq<Transaction>
    var nextId: int

    /** Generated keys start at 1, are unique, and are all below `nextId`. */
    ghost predicate Valid()
      reads this
    {
      && nextId >= 1
      && (forall i :: 0 <= i < |rows| ==> 1 <= rows[i].id < nextId)
      && DistinctIds(rows)
    }

    constructor ()
      ensures Valid() && rows == [] && nextId == 1
    {
      rows := [];
      nextId := 1;
    }

    /** `find()`: every row of the table, whoever owns it. */
    method FindAll() returns (r: seq<Transaction>)
      ensures r == rows
    {
      r := rows;
    }

    /** `findOneBy({ id })`. */
    method FindOne(id: int) returns (r: Option<Transaction>)
      requires Valid()
      ensures r.Some? <==> exists i :: 0 <= i < |rows| && rows[i].id == id
      ensures r.Some? ==> r.value in rows && r.value.id == id
    {
      r := Find(rows, id);
    }

    /** `save(transaction)` of a new row: the key is generated, `createdAt` defaults to `now`. */
    method Create(input: NewTransaction, now: Date) returns (saved: Transaction)
      requires Valid()
      modifies this
      ensures Valid()
      ensures rows == old(rows) + [saved]
      ensures saved.id == old(nextId) && Find(old(rows), saved.id).None?
      ensures saved.kind == input.kind && saved.amount == input.amount
      ensures saved.userId == input.userId && saved.categoryId == input.categoryId
      ensures saved.createdAt == if input.createdAt.Some? then input.createdAt.value else now
    {
      var created := if input.createdAt.Some? then input.createdAt.value else now;
      saved := Transaction(nextId, input.kind, input.amount, created, input.userId, input.categoryId);
      rows := rows + [saved];
      nextId := nextId + 1;
    }

    /** `update(id, patch)` then `findOneBy({ id })`: only row `id` changes, and only in the supplied columns. */
    method Update(id: int, patch: TransactionPatch) returns (r: Option<Transaction>)
      requires Valid()
      modifies this
      ensures Valid() && nextId == old(nextId)
      ensures |rows| == |old(rows)|
      ensures forall i :: 0 <= i < |rows| && old(rows)[i].id != id ==> rows[i] == old(rows)[i]
      ensures forall i :: 0 <= i < |rows| && old(rows)[i].id == id ==> rows[i] == ApplyPatch(old(rows)[i], patch)
      ensures r.None? <==> Find(old(rows), id).None?
      ensures r.Some? ==> r.value in rows && r.value.id == id && r.value == ApplyPatch(Find(old(rows), id).value, patch)
    {
      var before := rows;
      var after := seq(|before|, i requires 0 <= i < |before| =>
        if before[i].id == id then ApplyPatch(before[i], patch) else before[i]);
      assert forall i :: 0 <= i < |after| ==> after[i].id == before[i].id;
      rows := after;
      r := Find(after, id);
      match IndexOf(before, id)
      case None =>
      case Some(k) =>
        FindIsFirst(before, id, k);
        FindIsFirst(after, id, k);
    }

    /** `delete(id)`: the row with that id leaves the table; the others stay, in order. */
    method Remove(id: int)
      requires Valid()
      modifies this
      ensures Valid() && nextId == old(nextId)
      ensures Find(rows, id).None?
      ensures forall t :: t in rows <==> t in old(rows) && t.id != id
      ensures match IndexOf(old(rows), id)
        case None => rows == old(rows)
        case Some(k) => rows == old(rows)[..k] + old(rows)[k + 1..]
    {
      var k := IndexOf(rows, id);
      if k.Some? {
        RemoveAt(rows, k.value, nextId);
        rows := rows[..k.value] + rows[k.value + 1..];
      }
    }
  }

  /** Cutting out the row at `k` keeps the key invariant and drops exactly the rows with its id. */
  lemma RemoveAt(rows: seq<Transaction>, k: nat, nextId: int)
    requires k < |rows| && DistinctIds(rows)
    requires forall i :: 0 <= i < |rows| ==> 1 <= rows[i].id < nextId
    ensures var s := rows[..k] + rows[k + 1..];
      && DistinctIds(s)
      && (forall i :: 0 <= i < |s| ==> 1 <= s[i].id < nextId)
      && (forall t :: t in s <==> t in rows && t.id != rows[k].id)
  {
    var s := rows[..k] + rows[k + 1..];
    assert forall i :: 0 <= i < |s| ==> s[i] == rows[if i < k then i else i + 1];
    forall t | t in rows && t.id != rows[k].id ensures t in s {
      var i :| 0 <= i < |rows| && rows[i] == t;
      if i < k { assert s[i] == t; } else { assert s[i - 1] == t; }
    }
  }

  /** `Find` returns the row at the first position holding that id. */
  lemma {:induction false} FindIsFirst(rows: seq<Transaction>, id: int, k: nat)
    requires k < |rows| && rows[k].id == id
    requires forall i :: 0 <= i < k ==> rows[i].id != id
    ensures Find(rows, id) == Some(rows[k])
  {
    if k > 0 {
      FindIsFirst(rows[1..], id, k - 1);
    }
  }

  // ---------------------------------------------------------------------------------------
  // getDashboardSummary

  /** The dashboard figures: income, expenses and what is left of the income. */
  datatype Summary = Summary(income: int, expenses: int, savings: int)

  /**
   * `SELECT SUM(amount) ... WHERE userId = :userId AND type = :type`: NULL when no row
   * matches, the sum of the matching amounts otherwise.
   */
  function SumOfType(rows: seq<Transaction>, userId: int, kind: string): (r: Option<int>)
    ensures r.None? <==> OfType(Owned(rows, userId), kind) == []
    ensures r.Some? ==> r.value == Total(OfType(Owned(rows, userId), kind))
  {
    if rows == [] then None
    else
      var rest := SumOfType(rows[1..], userId, kind);
      SelectCons(rows, userId, kind);
      assert [] + OfType(Owned(rows[1..], userId), kind) == OfType(Owned(rows[1..], userId), kind);
      if rows[0].userId == userId && rows[0].kind == kind then Some(rows[0].amount + OrZero(rest))
      else rest
  }

  lemma SelectCons(rows: seq<Transaction>, userId: int, kind: string)
    requires rows != []
    ensures OfType(Owned(rows, userId), kind) ==
      (if rows[0].userId == userId && rows[0].kind == kind then [rows[0]] else [])
      + OfType(Owned(rows[1..], userId), kind)
  {
    var head := if rows[0].userId == userId then [rows[0]] else [];
    assert Owned(rows, userId) == head + Owned(rows[1..], userId);
    WhereAppend(head, Owned(rows[1..], userId), KindIs(kind));
  }

  /** `getDashboardSummary(userId)`; `|| 0` turns a NULL sum into 0. */
  function DashboardSummary(rows: seq<Transaction>, userId: int): (s: Summary)
    ensures s.income == Total(OfType(Owned(rows, userId), "income"))
    ensures s.expenses == Total(OfType(Owned(rows, userId), "expense"))
    ensures s.savings == s.income - s.expenses
  {
    var income := SumOfType(rows, userId, "income");
    var expenses := SumOfType(rows, userId, "expense");
    Summary(OrZero(income), OrZero(expenses), OrZero(income) - OrZero(expenses))
  }

  /** A user with no income (expense) row sees 0 income (expenses). */
  lemma DashboardOfNoRows(rows: seq<Transaction>, userId: int)
    requires forall t :: t in rows && t.userId == userId ==> t.kind != "income"
    ensures DashboardSummary(rows, userId).income == 0
  {
    NoneSelected(Owned(rows, userId), KindIs("income"));
  }

  /**
   * Rows of other users, and rows whose type is neither "income" nor "expense", change
   * none of the three figures, wherever they stand in the table.
   */
  lemma DashboardIgnoresUnrelatedRows(before: seq<Transaction>, extra: seq<Transaction>, after: seq<Transaction>, userId: int)
    requires forall t :: t in extra ==> t.userId != userId || (t.kind != "income" && t.kind != "expense")
    ensures DashboardSummary(before + extra + after, userId) == DashboardSummary(before + after, userId)
  {
    OwnedAppend3(before, extra, after, userId);
    var ob, oe, oa := Owned(before, userId), Owned(extra, userId), Owned(after, userId);
    NoneSelected(oe, KindIs("income"));
    NoneSelected(oe, KindIs("expense"));
    OfTypeDrop(ob, oe, oa, "income");
    OfTypeDrop(ob, oe, oa, "expense");
  }

  lemma OwnedAppend3(a: seq<Transaction>, b: seq<Transaction>, c: seq<Transaction>, userId: int)
    ensures Owned(a + b + c, userId) == Owned(a, userId) + Owned(b, userId) + Owned(c, userId)
    ensures Owned(a + c, userId) == Owned(a, userId) + Owned(c, userId)
  {
    WhereAppend(a + b, c, OwnedBy(userId));
    WhereAppend(a, b, OwnedBy(userId));
    WhereAppend(a, c, OwnedBy(userId));
  }

  lemma OfTypeDrop(a: seq<Transaction>, b: seq<Transaction>, c: seq<Transaction>, kind: string)
    requires OfType(b, kind) == []
    ensures OfType(a + b + c, kind) == OfType(a + c, kind)
  {
    WhereAppend(a + b, c, KindIs(kind));
    WhereAppend(a, b, KindIs(kind));
    WhereAppend(a, c, KindIs(kind));
    assert OfType(a, kind) + OfType(b, kind) == OfType(a, kind);
  }

  // ---------------------------------------------------------------------------------------
  // getCategoryUsagePercent

  /** `(group / total) * 100` in JavaScript: a zero divisor gives NaN or an infinity. */
  datatype Share = Percent(value: real) | NonFinite

  datatype CategoryShare = CategoryShare(category: Option<int>, percent: Share)

  /** `(part / whole) * 100`; a zero divisor gives NaN or Infinity. */
  function Ratio(part: int, whole: int): (r: Share)
    ensures r.NonFinite? <==> whole == 0
    ensures r.Percent? ==> r.value * (whole as real) == (part as real) * 100.0
  {
    if whole == 0 then NonFinite else Percent((part as real / whole as real) * 100.0)
  }

  /** The `GROUP BY transaction.category` keys, in order of first appearance; NULL is one group. */
  function DistinctCategories(rows: seq<Transaction>): (cs: seq<Option<int>>)
    ensures NoDuplicates(cs)
    ensures forall c :: c in cs <==> exists t :: t in rows && t.categoryId == c
  {
    if rows == [] then []
    else
      var cs := DistinctCategories(rows[..|rows| - 1]);
      var last := rows[|rows| - 1];
      assert rows == rows[..|rows| - 1] + [last];
      if last.categoryId in cs then cs else cs + [last.categoryId]
  }

  function GroupTotal(rows: seq<Transaction>, category: Option<int>): int
  {
    Total(InCategory(rows, category))
  }

  /** One `{ category, percent }` per grouped row, each divided by the user's overall sum. */
  function Shares(rows: seq<Transaction>, categories: seq<Option<int>>, total: Option<int>): (r: seq<CategoryShare>)
    ensures |r| == |categories|
    ensures forall i :: 0 <= i < |r| ==>
      r[i] == CategoryShare(categories[i], Ratio(GroupTotal(rows, categories[i]), OrZero(total)))
  {
    if categories == [] then []
    else
      [CategoryShare(categories[0], Ratio(GroupTotal(rows, categories[0]), OrZero(total)))]
      + Shares(rows, categories[1..], total)
  }

  /** `SELECT SUM(amount)` over the given rows: NULL when there are none. */
  function SqlSum(rows: seq<Transaction>): (r: Option<int>)
    ensures r == if rows == [] then None else Some(Total(rows))
  {
    if rows == [] then None else Some(rows[0].amount + OrZero(SqlSum(rows[1..])))
  }

  /** `getCategoryUsagePercent(userId)`. */
  function CategoryUsagePercent(rows: seq<Transaction>, userId: int): (r: seq<CategoryShare>)
    ensures var mine := Owned(rows, userId);
      && |r| == |DistinctCategories(mine)|
      && (forall i :: 0 <= i < |r| ==> r[i].category == DistinctCategories(mine)[i])
      && (forall i :: 0 <= i < |r| ==> r[i].percent == Ratio(GroupTotal(mine, r[i].category), Total(mine)))
    ensures Owned(rows, userId) == [] ==> r == []
  {
    var mine := Owned(rows, userId);
    Shares(mine, DistinctCategories(mine), SqlSum(mine))
  }

  /** The sum of the (finite) percentages of a usage list. */
  function SumPercents(shares: seq<CategoryShare>): real
  {
    if shares == [] then 0.0
    else (if shares[0].percent.Percent? then shares[0].percent.value else 0.0) + SumPercents(shares[1..])
  }

  function SumGroupTotals(rows: seq<Transaction>, categories: seq<Option<int>>): int
  {
    if categories == [] then 0 else GroupTotal(rows, categories[0]) + SumGroupTotals(rows, categories[1..])
  }

  lemma {:induction false} SumGroupTotalsOfNoRows(categories: seq<Option<int>>)
    ensures SumGroupTotals([], categories) == 0
  {
    if categories != [] {
      SumGroupTotalsOfNoRows(categories[1..]);
    }
  }

  /** Adding a row in front adds its amount to exactly the one group of its category. */
  lemma {:induction false} SumGroupTotalsCons(t: Transaction, rows: seq<Transaction>, categories: seq<Option<int>>)
    requires NoDuplicates(categories)
    ensures SumGroupTotals([t] + rows, categories)
      == (if t.categoryId in categories then t.amount else 0) + SumGroupTotals(rows, categories)
  {
    if categories != [] {
      var c := categories[0];
      assert ([t] + rows)[1..] == rows;
      assert InCategory([t] + rows, c) == (if t.categoryId == c then [t] else []) + InCategory(rows, c);
      TotalAppend(if t.categoryId == c then [t] else [], InCategory(rows, c));
      SumGroupTotalsCons(t, rows, categories[1..]);
      if t.categoryId == c {
        assert t.categoryId !in categories[1..];
      }
    }
  }

  /** The category groups partition the rows, so their sums add up to the whole. */
  lemma {:induction false} GroupsPartitionTotal(rows: seq<Transaction>, categories: seq<Option<int>>)
    requires NoDuplicates(categories)
    requires forall t :: t in rows ==> t.categoryId in categories
    ensures SumGroupTotals(rows, categories) == Total(rows)
  {
    if rows == [] {
      SumGroupTotalsOfNoRows(categories);
    } else {
      assert [rows[0]] + rows[1..] == rows;
      SumGroupTotalsCons(rows[0], rows[1..], categories);
      GroupsPartitionTotal(rows[1..], categories);
    }
  }

  lemma {:induction false} SumPercentsOfShares(rows: seq<Transaction>, categories: seq<Option<int>>, total: int)
    requires total != 0
    ensures SumPercents(Shares(rows, categories, Some(total)))
      == (SumGroupTotals(rows, categories) as real / total as real) * 100.0
  {
    if categories != [] {
      SumPercentsOfShares(rows, categories[1..], total);
      AddPercents(GroupTotal(rows, categories[0]) as real, SumGroupTotals(rows, categories[1..]) as real, total as real);
    }
  }

  lemma WholePercent(whole: real)
    requires whole != 0.0
    ensures (whole / whole) * 100.0 == 100.0
  {
  }

  lemma AddPercents(a: real, b: real, whole: real)
    requires whole != 0.0
    ensures (a / whole) * 100.0 + (b / whole) * 100.0 == ((a + b) / whole) * 100.0
  {
  }

  /** With positive amounts, the percentages of a user with rows add up to exactly 100. */
  lemma CategoryPercentsSumTo100(rows: seq<Transaction>, userId: int)
    requires AllWellFormed(rows)
    requires Owned(rows, userId) != []
    ensures SumPercents(CategoryUsagePercent(rows, userId)) == 100.0
  {
    var mine := Owned(rows, userId);
    var cats := DistinctCategories(mine);
    assert forall t :: t in mine ==> t in rows;
    TotalPositive(mine);
    GroupsPartitionTotal(mine, cats);
    assert SqlSum(mine) == Some(Total(mine));
    assert CategoryUsagePercent(rows, userId) == Shares(mine, cats, Some(Total(mine)));
    SumPercentsOfShares(mine, cats, Total(mine));
    WholePercent(Total(mine) as real);
  }

  /** With positive amounts, every category's percentage lies in (0, 100]. */
  lemma CategoryPercentBounds(rows: seq<Transaction>, userId: int)
    requires AllWellFormed(rows)
    ensures forall s :: s in CategoryUsagePercent(rows, userId) ==>
      s.percent.Percent? && 0.0 < s.percent.value <= 100.0
  {
    var mine := Owned(rows, userId);
    var cats := DistinctCategories(mine);
    var r := CategoryUsagePercent(rows, userId);
    forall s | s in r ensures s.percent.Percent? && 0.0 < s.percent.value <= 100.0 {
      var i :| 0 <= i < |r| && r[i] == s;
      assert cats[i] in cats;
      GroupPercentBounds(mine, cats[i]);
    }
  }

  /** A category that occurs among positive amounts holds a share in (0, 100] of their sum. */
  lemma GroupPercentBounds(rows: seq<Transaction>, category: Option<int>)
    requires forall t :: t in rows ==> t.amount > 0
    requires exists t :: t in rows && t.categoryId == category
    ensures var share := Ratio(GroupTotal(rows, category), Total(rows));
      share.Percent? && 0.0 < share.value <= 100.0
  {
    var t :| t in rows && t.categoryId == category;
    assert t in InCategory(rows, category);
    WhereTotalBounds(rows, CategoryIs(category));
    RatioBounds(GroupTotal(rows, category), Total(rows));
  }

  lemma RatioBounds(part: int, whole: int)
    requires 0 < part <= whole
    ensures Ratio(part, whole).Percent? && 0.0 < Ratio(part, whole).value <= 100.0
  {
    var q := part as real / whole as real;
    assert q * whole as real == part as real;
  }
}
