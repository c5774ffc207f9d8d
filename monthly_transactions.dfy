/**
 * `TransactionsService.getMonthlyTransactions(userId, year)`: a grouped query (one row per
 * month and type, with the sum of the amounts), then a loop that writes those sums into
 * twelve zeroed entries, one per calendar month.
 */
module MonthlyTransactions {
  import opened Wrappers
  import opened Decimal
  import opened TransactionEntity

  /** One raw row of the grouped query; `None` is a missing column or SQL NULL. */
  datatype MonthRow = MonthRow(month: Option<string>, kind: Option<string>, totalAmount: Option<int>)

  /**
   * One entry of the series. `month` is the calendar month index 0..11; the short month
   * name the source stores there depends on the locale and is not modelled.
   */
  datatype MonthEntry = MonthEntry(month: nat, income: int, expense: int)

  /** The TypeError the loop raises when `monthlyData[monthIndex]` is undefined. */
  datatype MonthlyError = UndefinedEntry(month: string)

  /** How a row's type compares after `toLowerCase()`. */
  datatype Kind = IncomeKind | ExpenseKind | OtherKind

  // ---------------------------------------------------------------------------------------
  // The grouped query

  /** `TO_CHAR(createdAt, 'YYYY-MM')`. */
  function MonthText(year: nat, month: MonthNumber): string
  {
    Padded(year, 4) + "-" + Padded(month, 2)
  }

  /** The distinct values of the `type` column, in order of first appearance. */
  function DistinctTypes(rows: seq<Transaction>): (ks: seq<string>)
    ensures |ks| <= |rows|
  {
    if rows == [] then []
    else
      var ks := DistinctTypes(rows[..|rows| - 1]);
      var last := rows[|rows| - 1];
      if last.kind in ks then ks else ks + [last.kind]
  }

  /** `GROUP BY type` yields each type that occurs exactly once. */
  lemma {:induction false} DistinctTypesSpec(rows: seq<Transaction>)
    ensures NoDuplicates(DistinctTypes(rows))
    ensures forall k :: k in DistinctTypes(rows) <==> exists t :: t in rows && t.kind == k
  {
    if rows != [] {
      var front := rows[..|rows| - 1];
      DistinctTypesSpec(front);
      assert rows == front + [rows[|rows| - 1]];
    }
  }

  /** The `month` text of each calendar month of the year: `labels(m)` is "YYYY-MM" for month m. */
  function MonthLabels(year: nat): MonthNumber -> string
  {
    (m: MonthNumber) => MonthText(year, m)
  }

  /** The groups of one month, labelled `text`: one row per type in `kinds`, each with its sum. */
  function MonthGroups(rows: seq<Transaction>, text: string, month: MonthNumber, kinds: seq<string>): (r: seq<MonthRow>)
    ensures |r| == |kinds|
  {
    if kinds == [] then []
    else
      var k := kinds[|kinds| - 1];
      MonthGroups(rows, text, month, kinds[..|kinds| - 1])
      + [MonthRow(Some(text), Some(k), Some(Total(OfType(InMonth(rows, month), k))))]
  }

  /** The groups of one month: one per type that occurs among that month's rows. */
  function MonthBlock(rows: seq<Transaction>, labels: MonthNumber -> string, month: MonthNumber): seq<MonthRow>
  {
    MonthGroups(rows, labels(month), month, DistinctTypes(InMonth(rows, month)))
  }

  /** The groups of each month, as a function of the month. */
  function QueryBlocks(rows: seq<Transaction>, labels: MonthNumber -> string): MonthNumber -> seq<MonthRow>
  {
    (m: MonthNumber) => MonthBlock(rows, labels, m)
  }

  /** The blocks of months 1..n, in ascending month order (`ORDER BY month ASC`). */
  function MonthsUpTo(blocks: MonthNumber -> seq<MonthRow>, n: nat): seq<MonthRow>
    requires n <= 12
  {
    if n == 0 then [] else MonthsUpTo(blocks, n - 1) + blocks(n)
  }

  /**
   * `SELECT TO_CHAR(createdAt, 'YYYY-MM') AS month, type, SUM(amount) ... WHERE
   * EXTRACT(YEAR FROM createdAt) = :year AND userId = :userId GROUP BY month, type`.
   * No stored date has a negative year, so such a year selects nothing.
   */
  function MonthlyQuery(rows: seq<Transaction>, userId: int, year: int): seq<MonthRow>
  {
    if year < 0 then [] else MonthsUpTo(QueryBlocks(InYear(Owned(rows, userId), year), MonthLabels(year)), 12)
  }

  /** Sum of the user's rows of one type created in the given year and month. */
  function MonthTotal(rows: seq<Transaction>, userId: int, year: int, month: MonthNumber, kind: string): int
  {
    Total(OfType(InMonth(InYear(Owned(rows, userId), year), month), kind))
  }

  // ---------------------------------------------------------------------------------------
  // The loop over the query's rows

  function LowerChar(c: char): char { if 'A' <= c <= 'Z' then (c as int + 32) as char else c }
  function UpperChar(c: char): char { if 'a' <= c <= 'z' then (c as int - 32) as char else c }

  /** `toLowerCase()` on ASCII letters. */
  function Lower(s: string): (r: string)
    ensures |r| == |s| && forall i :: 0 <= i < |s| ==> r[i] == LowerChar(s[i])
  {
    seq(|s|, i requires 0 <= i < |s| => LowerChar(s[i]))
  }

  /** ASCII upper-casing: 'a'..'z' become 'A'..'Z', every other character is kept. */
  function Upper(s: string): (r: string)
    ensures |r| == |s| && forall i :: 0 <= i < |s| ==> r[i] == UpperChar(s[i])
  {
    seq(|s|, i requires 0 <= i < |s| => UpperChar(s[i]))
  }

  /** The `type.toLowerCase() === 'income'` / `=== 'expense'` tests of the loop. */
  function KindOf(kind: string): Kind
  {
    var lower := Lower(kind);
    if lower == "income" then IncomeKind
    else if lower == "expense" then ExpenseKind
    else OtherKind
  }

  /** `!month || !type || totalAmount == null`: the row is passed over. */
  predicate Skipped(row: MonthRow)
  {
    row.month.None? || row.month.value == [] || row.kind.None? || row.kind.value == [] || row.totalAmount.None?
  }

  /** `parseInt(month.split('-')[1], 10) - 1`; `None` stands for NaN. */
  function MonthIndex(month: string): Option<int>
  {
    match SecondSegment(month)
    case None => None
    case Some(segment) =>
      match ParseInt(segment)
      case None => None
      case Some(n) => Some(n - 1)
  }

  /** The row is not skipped and writes `kind` into entry `i`. */
  predicate Writes(row: MonthRow, i: int, kind: Kind)
  {
    && !Skipped(row)
    && kind != OtherKind
    && KindOf(row.kind.value) == kind
    && MonthIndex(row.month.value) == Some(i)
  }

  function InitialMonths(): (data: seq<MonthEntry>)
    ensures |data| == 12
    ensures forall i :: 0 <= i < 12 ==> data[i] == MonthEntry(i, 0, 0)
  {
    seq(12, i requires 0 <= i < 12 => MonthEntry(i, 0, 0))
  }

  /** One iteration of the `forEach` body. */
  function ApplyRow(data: seq<MonthEntry>, row: MonthRow): (r: Result<seq<MonthEntry>, MonthlyError>)
    ensures r.Failure? <==>
      && !Skipped(row)
      && KindOf(row.kind.value) != OtherKind
      && !(MonthIndex(row.month.value).Some? && 0 <= MonthIndex(row.month.value).value < |data|)
    ensures r.Success? ==> |r.value| == |data|
    ensures r.Success? ==> forall j :: 0 <= j < |data| ==>
      && r.value[j].month == data[j].month
      && r.value[j].income == (if Writes(row, j, IncomeKind) then row.totalAmount.value else data[j].income)
      && r.value[j].expense == (if Writes(row, j, ExpenseKind) then row.totalAmount.value else data[j].expense)
  {
    if Skipped(row) then Success(data)
    else
      var index := MonthIndex(row.month.value);
      var kind := KindOf(row.kind.value);
      if kind == OtherKind then Success(data)
      else if index.None? || !(0 <= index.value < |data|) then Failure(UndefinedEntry(row.month.value))
      else if kind == IncomeKind then
        Success(data[index.value := data[index.value].(income := row.totalAmount.value)])
      else
        Success(data[index.value := data[index.value].(expense := row.totalAmount.value)])
  }

  /** The loop as a fold over the rows: the first exception ends it, as a throw in `forEach` does. */
  function Bucketed(rows: seq<MonthRow>): (r: Result<seq<MonthEntry>, MonthlyError>)
    ensures r.Success? ==> |r.value| == 12 && forall i :: 0 <= i < 12 ==> r.value[i].month == i
  {
    if rows == [] then Success(InitialMonths())
    else
      match Bucketed(rows[..|rows| - 1])
      case Failure(e) => Failure(e)
      case Success(data) => ApplyRow(data, rows[|rows| - 1])
  }

  /** The post-processing loop of `getMonthlyTransactions`, over the twelve entries in place. */
  method FillMonths(rows: seq<MonthRow>) returns (r: Result<seq<MonthEntry>, MonthlyError>)
    ensures r == Bucketed(rows)
  {
    var data := new MonthEntry[12](i => MonthEntry(i, 0, 0));
    assert data[..] == InitialMonths();
    var k := 0;
    while k < |rows|
      invariant 0 <= k <= |rows|
      invariant Bucketed(rows[..k]) == Success(data[..])
    {
      var row := rows[k];
      assert rows[..k + 1][..k] == rows[..k];
      if !Skipped(row) {
        var index := MonthIndex(row.month.value);
        var kind := KindOf(row.kind.value);
        if kind != OtherKind {
          if index.None? || !(0 <= index.value < data.Length) {
            r := Failure(UndefinedEntry(row.month.value));
            FailureIsFinal(rows, k + 1);
            return;
          }
          if kind == IncomeKind {
            data[index.value] := data[index.value].(income := row.totalAmount.value);
          } else {
            data[index.value] := data[index.value].(expense := row.totalAmount.value);
          }
        }
      }
      k := k + 1;
    }
    assert rows[..k] == rows;
    r := Success(data[..]);
  }

  /** A failure after the first `k` rows is the failure of the whole loop. */
  lemma {:induction false} FailureIsFinal(rows: seq<MonthRow>, k: nat)
    requires k <= |rows| && Bucketed(rows[..k]).Failure?
    ensures Bucketed(rows) == Bucketed(rows[..k])
    decreases |rows| - k
  {
    if k < |rows| {
      var front := rows[..|rows| - 1];
      assert front[..k] == rows[..k];
      FailureIsFinal(front, k);
      assert rows[..|rows|] == rows;
    } else {
      assert rows[..k] == rows;
    }
  }

  /** `getMonthlyTransactions(userId, year)`. */
  method GetMonthlyTransactions(rows: seq<Transaction>, userId: int, year: int) returns (r: Result<seq<MonthEntry>, MonthlyError>)
    ensures r.Success? && |r.value| == 12
    ensures forall i :: 0 <= i < 12 ==> r.value[i].month == i
    ensures (forall t :: t in rows && t.userId == userId ==> t.kind == "income" || t.kind == "expense") ==>
      forall i :: 0 <= i < 12 ==>
        && r.value[i].income == MonthTotal(rows, userId, year, i + 1, "income")
        && r.value[i].expense == MonthTotal(rows, userId, year, i + 1, "expense")
  {
    var result := MonthlyQuery(rows, userId, year);
    r := FillMonths(result);
    QueryNeverFails(rows, userId, year);
    if forall t :: t in rows && t.userId == userId ==> t.kind == "income" || t.kind == "expense" {
      forall i | 0 <= i < 12
        ensures r.value[i].income == MonthTotal(rows, userId, year, i + 1, "income")
        ensures r.value[i].expense == MonthTotal(rows, userId, year, i + 1, "expense")
      {
        MonthlyEntryIsMonthTotal(rows, userId, year, i);
      }
    }
  }

  // ---------------------------------------------------------------------------------------
  // Facts about the loop

  /**
   * `type` is compared case-insensitively: ASCII upper-casing it never changes what the row
   * does. (JavaScript's full `toUpperCase` also maps some non-ASCII letters onto ASCII ones,
   * such as dotless 'ı' onto 'I'; that mapping is not this lemma's `Upper`.)
   */
  lemma KindOfIgnoresCase(kind: string)
    ensures KindOf(Upper(kind)) == KindOf(kind)
  {
    assert Lower(Upper(kind)) == Lower(kind);
  }

  lemma KindOfExact()
    ensures KindOf("income") == IncomeKind && KindOf("expense") == ExpenseKind
    ensures KindOf("INCOME") == IncomeKind && KindOf("Expense") == ExpenseKind
  {
    assert Lower("income") == "income";
    assert Lower("expense") == "expense";
    assert Lower("INCOME") == "income";
    assert Lower("Expense") == "expense";
  }

  /** The rows that write entry `i` with `kind`. */
  function WritesTo(i: int, kind: Kind): MonthRow -> bool
  {
    (row: MonthRow) => Writes(row, i, kind)
  }

  /** The amount of the last row that satisfies `w`, or 0 when none does. */
  function LastWrite(rows: seq<MonthRow>, w: MonthRow -> bool): int
  {
    if rows == [] then 0
    else if w(rows[|rows| - 1]) then OrZero(rows[|rows| - 1].totalAmount)
    else LastWrite(rows[..|rows| - 1], w)
  }

  predicate AnyWrite(rows: seq<MonthRow>, w: MonthRow -> bool)
  {
    rows != [] && (w(rows[|rows| - 1]) || AnyWrite(rows[..|rows| - 1], w))
  }

  /** No row satisfies `w`. */
  predicate Silent(rows: seq<MonthRow>, w: MonthRow -> bool)
  {
    forall row :: row in rows ==> !w(row)
  }

  lemma {:induction false} NoWriteByMembership(rows: seq<MonthRow>, w: MonthRow -> bool)
    requires Silent(rows, w)
    ensures !AnyWrite(rows, w)
  {
    if rows != [] {
      var front := rows[..|rows| - 1];
      assert forall row :: row in front ==> row in rows;
      assert rows[|rows| - 1] in rows;
      NoWriteByMembership(front, w);
    }
  }

  function Amount(e: MonthEntry, kind: Kind): int
  {
    match kind
    case IncomeKind => e.income
    case ExpenseKind => e.expense
    case OtherKind => 0
  }

  /**
   * Entries are assigned, not accumulated: after the loop, each entry holds the total of
   * the LAST row that writes it, and 0 when no row does.
   */
  lemma {:induction false} BucketIsLastWrite(rows: seq<MonthRow>, i: int, kind: Kind)
    requires 0 <= i < 12 && kind != OtherKind
    requires Bucketed(rows).Success?
    ensures Amount(Bucketed(rows).value[i], kind) == LastWrite(rows, WritesTo(i, kind))
  {
    if rows != [] {
      var front := rows[..|rows| - 1];
      BucketIsLastWrite(front, i, kind);
    }
  }

  lemma {:induction false} LastWriteOfNoWrite(rows: seq<MonthRow>, w: MonthRow -> bool)
    requires !AnyWrite(rows, w)
    ensures LastWrite(rows, w) == 0
  {
    if rows != [] {
      LastWriteOfNoWrite(rows[..|rows| - 1], w);
    }
  }

  /** An entry that no row writes keeps its initial zeros. */
  lemma UntouchedEntryStaysZero(rows: seq<MonthRow>, i: int)
    requires 0 <= i < 12 && Bucketed(rows).Success?
    requires !AnyWrite(rows, WritesTo(i, IncomeKind)) && !AnyWrite(rows, WritesTo(i, ExpenseKind))
    ensures Bucketed(rows).value[i] == MonthEntry(i, 0, 0)
  {
    BucketIsLastWrite(rows, i, IncomeKind);
    BucketIsLastWrite(rows, i, ExpenseKind);
    LastWriteOfNoWrite(rows, WritesTo(i, IncomeKind));
    LastWriteOfNoWrite(rows, WritesTo(i, ExpenseKind));
  }

  /** A later row for the same month and kind replaces what an earlier one wrote. */
  lemma LaterRowOverwrites(rows: seq<MonthRow>, first: MonthRow, second: MonthRow, i: int, kind: Kind)
    requires 0 <= i < 12 && Writes(first, i, kind) && Writes(second, i, kind)
    requires Bucketed(rows + [first, second]).Success?
    ensures Amount(Bucketed(rows + [first, second]).value[i], kind) == second.totalAmount.value
  {
    BucketIsLastWrite(rows + [first, second], i, kind);
  }

  lemma {:induction false} LastWriteAppend(a: seq<MonthRow>, b: seq<MonthRow>, w: MonthRow -> bool)
    ensures LastWrite(a + b, w) == if AnyWrite(b, w) then LastWrite(b, w) else LastWrite(a, w)
  {
    if b == [] {
      assert a + b == a;
    } else {
      var front := b[..|b| - 1];
      assert (a + b)[..|a + b| - 1] == a + front;
      assert (a + b)[|a + b| - 1] == b[|b| - 1];
      LastWriteAppend(a, front, w);
    }
  }

  /** A row carrying `TO_CHAR`'s "YYYY-MM" text writes entry MM - 1 only. */
  lemma MonthTextIndex(year: nat, month: MonthNumber)
    ensures MonthText(year, month) != []
    ensures MonthIndex(MonthText(year, month)) == Some(month - 1)
  {
    var a, b := Padded(year, 4), Padded(month, 2);
    assert MonthText(year, month) == a + "-" + b;
    DashedDigitsIndex(a, b);
  }

  /** `parseInt("<digits>-<digits>".split('-')[1]) - 1` is the second number less one. */
  lemma DashedDigitsIndex(a: string, b: string)
    requires AllDigits(a) && AllDigits(b) && b != []
    ensures MonthIndex(a + "-" + b) == Some(DigitsValue(b) - 1)
  {
    SecondSegmentOfDigits(a, b);
    ParseIntOfDigits(b);
    IndexOfSegment(a + "-" + b, b);
  }

  lemma IndexOfSegment(s: string, segment: string)
    requires SecondSegment(s) == Some(segment) && ParseInt(segment).Some?
    ensures MonthIndex(s) == Some(ParseInt(segment).value - 1)
  {
  }

  /** Each month's text is non-empty and the loop reads it back as that month's index. */
  predicate ParsesBack(labels: MonthNumber -> string)
  {
    forall m: MonthNumber :: labels(m) != [] && MonthIndex(labels(m)) == Some(m - 1)
  }

  lemma MonthLabelsParseBack(year: nat)
    ensures ParsesBack(MonthLabels(year))
  {
    forall m: MonthNumber
      ensures MonthLabels(year)(m) != [] && MonthIndex(MonthLabels(year)(m)) == Some(m - 1)
    {
      MonthTextIndex(year, m);
    }
  }

  /** A row whose month reads "<digits>-<digits>" changes no entry but the one the second number names, less one. */
  lemma DashedRowTouchesOneEntry(data: seq<MonthEntry>, row: MonthRow, a: string, b: string)
    requires row.month == Some(a + "-" + b) && AllDigits(a) && AllDigits(b) && b != []
    requires ApplyRow(data, row).Success?
    ensures forall j :: 0 <= j < |data| && j != DigitsValue(b) - 1 ==> ApplyRow(data, row).value[j] == data[j]
  {
    DashedDigitsIndex(a, b);
  }

  /** The loop passes the row over, or its type is neither income nor expense in any case. */
  predicate Ignored(row: MonthRow)
  {
    Skipped(row) || KindOf(row.kind.value) == OtherKind
  }

  /** Ignored rows change no entry, wherever they come after. */
  lemma {:induction false} IgnoredRowsChangeNothing(rows: seq<MonthRow>, extra: seq<MonthRow>)
    requires forall row :: row in extra ==> Ignored(row)
    ensures Bucketed(rows + extra) == Bucketed(rows)
  {
    if extra == [] {
      assert rows + extra == rows;
    } else {
      var front := extra[..|extra| - 1];
      assert (rows + extra)[..|rows + extra| - 1] == rows + front;
      assert (rows + extra)[|rows + extra| - 1] == extra[|extra| - 1];
      assert forall row :: row in front ==> row in extra;
      assert extra[|extra| - 1] in extra;
      IgnoredRowsChangeNothing(rows, front);
    }
  }

  /** Every group row of a month carries that month's text. */
  lemma {:induction false} GroupsMonth(rows: seq<Transaction>, text: string, month: MonthNumber, kinds: seq<string>)
    ensures forall row :: row in MonthGroups(rows, text, month, kinds) ==> row.month == Some(text)
  {
    if kinds != [] {
      GroupsMonth(rows, text, month, kinds[..|kinds| - 1]);
    }
  }

  /** The row names a month text whose index the twelve entries have. */
  predicate Indexable(row: MonthRow)
  {
    row.month.Some? && MonthIndex(row.month.value).Some? && 0 <= MonthIndex(row.month.value).value < 12
  }

  /** Every group row of one month names a month the loop can index. */
  lemma BlockIndexable(rows: seq<Transaction>, labels: MonthNumber -> string, month: MonthNumber)
    requires ParsesBack(labels)
    ensures forall row :: row in QueryBlocks(rows, labels)(month) ==> Indexable(row)
  {
    var text := labels(month);
    assert MonthIndex(text) == Some(month - 1);
    GroupsMonth(rows, text, month, DistinctTypes(InMonth(rows, month)));
  }

  /** What holds of every row of every month's block holds of every row up to month n. */
  lemma {:induction false} EveryRowUpTo(blocks: MonthNumber -> seq<MonthRow>, n: nat, p: MonthRow -> bool)
    requires n <= 12
    requires forall m: MonthNumber, row :: row in blocks(m) ==> p(row)
    ensures forall row :: row in MonthsUpTo(blocks, n) ==> p(row)
  {
    if n > 0 {
      EveryRowUpTo(blocks, n - 1, p);
    }
  }

  lemma {:induction false} BucketedSucceeds(rows: seq<MonthRow>)
    requires forall row :: row in rows ==> Indexable(row)
    ensures Bucketed(rows).Success?
  {
    if rows != [] {
      var front := rows[..|rows| - 1];
      assert forall row :: row in front ==> row in rows;
      BucketedSucceeds(front);
      assert rows[|rows| - 1] in rows;
    }
  }

  /** On the rows the query returns, the loop never raises. */
  lemma QueryNeverFails(rows: seq<Transaction>, userId: int, year: int)
    ensures Bucketed(MonthlyQuery(rows, userId, year)).Success?
  {
    if year >= 0 {
      var mine, labels := InYear(Owned(rows, userId), year), MonthLabels(year);
      MonthLabelsParseBack(year);
      forall m: MonthNumber, row | row in QueryBlocks(mine, labels)(m)
        ensures Indexable(row)
      {
        BlockIndexable(mine, labels, m);
      }
      EveryRowUpTo(QueryBlocks(mine, labels), 12, Indexable);
    }
    BucketedSucceeds(MonthlyQuery(rows, userId, year));
  }

  function Word(kind: Kind): string
  {
    if kind == IncomeKind then "income" else "expense"
  }

  /** A group row of month `month` whose type is "income" or "expense" writes entry `month - 1` for its own type only. */
  lemma GroupRowsWrite(text: string, month: MonthNumber, kinds: seq<string>, kind: Kind)
    requires text != [] && MonthIndex(text) == Some(month - 1) && kind != OtherKind
    requires forall k :: k in kinds ==> k == "income" || k == "expense"
    ensures forall k, v :: k in kinds ==> (WritesTo(month - 1, kind)(MonthRow(Some(text), Some(k), Some(v))) <==> k == Word(kind))
  {
    KindOfExact();
  }

  /** Within one month's groups, the row of type `word` is the one `w` picks; its sum is what is left. */
  lemma {:induction false} MonthGroupsValue(rows: seq<Transaction>, text: string, month: MonthNumber, kinds: seq<string>, w: MonthRow -> bool, word: string)
    requires forall k, v :: k in kinds ==> (w(MonthRow(Some(text), Some(k), Some(v))) <==> k == word)
    ensures LastWrite(MonthGroups(rows, text, month, kinds), w)
      == if word in kinds then Total(OfType(InMonth(rows, month), word)) else 0
  {
    if kinds != [] {
      var front := kinds[..|kinds| - 1];
      var k := kinds[|kinds| - 1];
      var v := Total(OfType(InMonth(rows, month), k));
      var g := MonthGroups(rows, text, month, kinds);
      assert g[..|g| - 1] == MonthGroups(rows, text, month, front);
      assert g[|g| - 1] == MonthRow(Some(text), Some(k), Some(v));
      assert forall x :: x in front ==> x in kinds;
      assert k in kinds;
      MonthGroupsValue(rows, text, month, front, w, word);
      assert word in kinds <==> word in front || word == k;
    }
  }

  /** Over months 1..n, only month `own`'s block can write what `w` picks, when every other block is silent. */
  lemma {:induction false} MonthsUpToValue(blocks: MonthNumber -> seq<MonthRow>, n: nat, own: MonthNumber, w: MonthRow -> bool)
    requires n <= 12
    requires forall m: MonthNumber :: m != own ==> Silent(blocks(m), w)
    ensures LastWrite(MonthsUpTo(blocks, n), w) == if n >= own then LastWrite(blocks(own), w) else 0
  {
    if n > 0 {
      var front, block := MonthsUpTo(blocks, n - 1), blocks(n);
      MonthsUpToValue(blocks, n - 1, own, w);
      LastWriteAppend(front, block, w);
      if n != own {
        NoWriteByMembership(block, w);
      } else if !AnyWrite(block, w) {
        LastWriteOfNoWrite(block, w);
      }
    }
  }

  /** Only the groups of month i + 1 write entry i. */
  lemma ForeignMonthsSilent(rows: seq<Transaction>, labels: MonthNumber -> string, i: int, kind: Kind)
    requires ParsesBack(labels)
    ensures forall m: MonthNumber :: m != i + 1 ==> Silent(QueryBlocks(rows, labels)(m), WritesTo(i, kind))
  {
    forall m: MonthNumber | m != i + 1
      ensures Silent(QueryBlocks(rows, labels)(m), WritesTo(i, kind))
    {
      var text := labels(m);
      assert MonthIndex(text) == Some(m - 1);
      GroupsMonth(rows, text, m, DistinctTypes(InMonth(rows, m)));
    }
  }

  /** The rows that reach the query's month groups are the user's, so their types are the user's types. */
  lemma MonthKinds(rows: seq<Transaction>, userId: int, year: int, month: MonthNumber)
    requires forall t :: t in rows && t.userId == userId ==> t.kind == "income" || t.kind == "expense"
    ensures forall k :: k in DistinctTypes(InMonth(InYear(Owned(rows, userId), year), month)) ==> k == "income" || k == "expense"
  {
    DistinctTypesSpec(InMonth(InYear(Owned(rows, userId), year), month));
  }

  /** Entry i of the query's result is decided by the groups of month i + 1 alone. */
  lemma QueryPicksMonth(rows: seq<Transaction>, userId: int, year: nat, i: int, kind: Kind)
    requires 0 <= i < 12
    ensures LastWrite(MonthlyQuery(rows, userId, year), WritesTo(i, kind))
      == LastWrite(MonthBlock(InYear(Owned(rows, userId), year), MonthLabels(year), i + 1), WritesTo(i, kind))
  {
    var mine, labels := InYear(Owned(rows, userId), year), MonthLabels(year);
    MonthLabelsParseBack(year);
    ForeignMonthsSilent(mine, labels, i, kind);
    MonthsUpToValue(QueryBlocks(mine, labels), 12, i + 1, WritesTo(i, kind));
  }

  /** With exact types, what the loop leaves in entry i for `kind` is that month's sum of `kind`. */
  lemma EntryIsMonthTotal(rows: seq<Transaction>, userId: int, year: nat, i: int, kind: Kind)
    requires 0 <= i < 12 && kind != OtherKind
    requires forall t :: t in rows && t.userId == userId ==> t.kind == "income" || t.kind == "expense"
    ensures LastWrite(MonthlyQuery(rows, userId, year), WritesTo(i, kind)) == MonthTotal(rows, userId, year, i + 1, Word(kind))
  {
    var mine, labels := InYear(Owned(rows, userId), year), MonthLabels(year);
    var inMonth := InMonth(mine, i + 1);
    var kinds := DistinctTypes(inMonth);
    var text := labels(i + 1);
    QueryPicksMonth(rows, userId, year, i, kind);
    MonthTextIndex(year, i + 1);
    assert text == MonthText(year, i + 1);
    MonthKinds(rows, userId, year, i + 1);
    GroupRowsWrite(text, i + 1, kinds, kind);
    MonthGroupsValue(mine, text, i + 1, kinds, WritesTo(i, kind), Word(kind));
    if Word(kind) !in kinds {
      DistinctTypesSpec(inMonth);
      NoneSelected(inMonth, KindIs(Word(kind)));
    }
  }

  /**
   * When the user's types are exactly "income" or "expense", entry i of the series holds
   * the sums of the user's income and expense rows created in that year and month i + 1.
   */
  lemma MonthlyEntryIsMonthTotal(rows: seq<Transaction>, userId: int, year: int, i: int)
    requires 0 <= i < 12
    requires forall t :: t in rows && t.userId == userId ==> t.kind == "income" || t.kind == "expense"
    ensures Bucketed(MonthlyQuery(rows, userId, year)).Success?
    ensures Bucketed(MonthlyQuery(rows, userId, year)).value[i].income == MonthTotal(rows, userId, year, i + 1, "income")
    ensures Bucketed(MonthlyQuery(rows, userId, year)).value[i].expense == MonthTotal(rows, userId, year, i + 1, "expense")
  {
    QueryNeverFails(rows, userId, year);
    var q := MonthlyQuery(rows, userId, year);
    BucketIsLastWrite(q, i, IncomeKind);
    BucketIsLastWrite(q, i, ExpenseKind);
    if year < 0 {
      var mine := InYear(Owned(rows, userId), year);
      assert mine == [] by {
        NoneSelected(Owned(rows, userId), YearIs(year));
      }
      assert InMonth(mine, i + 1) == [] by {
        NoneSelected(mine, MonthIs(i + 1));
      }
    } else {
      EntryIsMonthTotal(rows, userId, year, i, IncomeKind);
      EntryIsMonthTotal(rows, userId, year, i, ExpenseKind);
    }
  }
}
