# Budget backend: transactions, aggregations and auth gates in Dafny

This project models the logic of a personal-finance backend. Users register and log in,
record income and expense transactions, and read aggregates of them. The model covers:

- **The transactions table and `TransactionsService`.** The table is a sequence of rows
  with unique generated ids, held in class `Transactions.TransactionsService`. The class
  has `findAll`, `findOne`, `create`, `update` and `remove`.
- **The dashboard summary.** Income and expense sums per user, and savings as income
  minus expenses.
- **The category usage percentages.** `(group sum / user total) * 100` for each category,
  with a NULL category as one group of its own.
- **The monthly series.** This has two parts:
  - The grouped `TO_CHAR(createdAt, 'YYYY-MM')` query is a function of the table.
  - The post-processing loop is a method over an array of twelve entries. It skips
    incomplete rows, reads the month index with `parseInt(month.split('-')[1], 10) - 1`,
    compares the type case-insensitively and *assigns* the sum to the entry.
  - An income or expense row whose month index falls outside 0..11 makes the loop raise
    a TypeError, because `monthlyData[monthIndex]` is undefined. This is modelled as
    `Failure(UndefinedEntry(month))`, and `QueryNeverFails` proves the query never
    produces such a row.
- **The `CreateTransactionDto` constraints.** The enumerated type, a positive numeric
  amount, an optional numeric `categoryId` and a numeric `userId`, as a list of failed
  constraints.
- **`JwtStrategy.validate`.** Two distinct rejections, then the exact
  `{ userId, username }` identity taken from the token.
- **`AuthService`.**
  - `validateUser`: an unknown email and a wrong password fail identically, and the hash
    is stripped from the result.
  - `login`: the signed payload and the role.
  - `register`: stores the hash, never the raw password. Class `AuthService.UserRepository`
    holds the users table with its unique email and username columns.

bcrypt's `hash` and `compare` and the JWT `sign` are function parameters with no
interpretation. The clock also enters as a parameter: `now`, the value of a
`CURRENT_TIMESTAMP` default. JavaScript values that reach the validators and the token
gate are a small `JsValue` datatype, with `Number()` and truthiness written out.
Amounts are integers (cents). Percentages are exact reals. A division by a zero total is
`NonFinite`, which stands for JavaScript's NaN or Infinity.

Modules, one file each:
- `Wrappers` (wrappers.dfy)
- `Decimal` (decimal.dfy): digit text, `parseInt` and `split('-')`
- `JsValues` (js_values.dfy)
- `TransactionEntity` (transaction_entity.dfy)
- `CreateTransactionDto` (create_transaction_dto.dfy)
- `Transactions` (transactions_service.dfy)
- `MonthlyTransactions` (monthly_transactions.dfy)
- `Users` (users.dfy)
- `JwtStrategy` (jwt_strategy.dfy)
- `AuthService` (auth_service.dfy)

Three facts about the code that a reader might not expect:
- `register` returns the saved entity with `passwordHash` in it.
- `getCategoryUsagePercent` has no guard against a zero total. In the model that division
  is `NonFinite`, and `CategoryUsagePercent` proves that a user with no rows gets `[]`,
  so the division is never reached.
- CRUD on transactions is not scoped to the caller.

## Model

| member | source | states |
|---|---|---|
| Wrappers.OrZero | src/transactions/transactions.service.ts:46-48 | `total \|\| 0`: a NULL sum reads 0, any other sum reads as itself |
| Decimal.Padded | src/transactions/transactions.service.ts:56 | the 'YYYY' / 'MM' text of n is all digits, at least `width` long, and denotes n |
| Decimal.ToDigitsRoundTrip | src/transactions/transactions.service.ts:56 | the decimal text of n reads back as n |
| Decimal.PadZeros | src/transactions/transactions.service.ts:56 | leading zeros keep the value and reach the width |
| Decimal.LeadingZero | src/transactions/transactions.service.ts:56 | a leading '0' does not change the value of a digit string |
| Decimal.TrimStart | src/transactions/transactions.service.ts:81 | `parseInt`'s white-space skipping leaves a string that is empty or starts with a non-space |
| Decimal.TrimStartIsSuffix | src/transactions/transactions.service.ts:81 | what trimming leaves is a suffix, and everything dropped was white space |
| Decimal.LeadingDigits | src/transactions/transactions.service.ts:81 | the digits `parseInt` reads are all digits |
| Decimal.LeadingDigitsIsPrefix | src/transactions/transactions.service.ts:81 | they are the longest prefix of digits: a prefix, followed by a non-digit or the end |
| Decimal.ParseIntOfDigits | src/transactions/transactions.service.ts:81 | `parseInt` of a non-empty digit string is exactly the number it denotes |
| Decimal.LeadingDigitsOfDigits | src/transactions/transactions.service.ts:81 | a digit string is read in full |
| Decimal.ParseInt | src/transactions/transactions.service.ts:81 | `parseInt(s, 10)`: white space, an optional sign, then the longest digit run, NaN when there is none; its properties are `ParseIntOfDigits`, `TrimStartIsSuffix` and `LeadingDigitsIsPrefix` |
| Decimal.AfterFirstDash | src/transactions/transactions.service.ts:81 | the text after the first '-' is shorter than the input |
| Decimal.UpToDash | src/transactions/transactions.service.ts:81 | a `split('-')` segment holds no '-' |
| Decimal.UpToDashIsPrefix | src/transactions/transactions.service.ts:81 | the segment is a prefix ended by '-' or by the end of the text |
| Decimal.SecondSegment | src/transactions/transactions.service.ts:81 | `s.split('-')[1]`, undefined when `s` has no '-'; stated by `SecondSegmentOfDigits`, `AfterFirstDash` and `UpToDashIsPrefix` |
| Decimal.SecondSegmentOfDigits | src/transactions/transactions.service.ts:81 | `("<digits>-<digits>").split('-')[1]` is the second run of digits |
| Decimal.AfterDashOfDigits | src/transactions/transactions.service.ts:81 | after the first dash of "<digits>-rest" comes exactly `rest` |
| Decimal.UpToDashOfDigits | src/transactions/transactions.service.ts:81 | a digit string has no dash, so its first segment is all of it |
| JsValues.ToNumber | src/users/users.service.ts:31-33 | `Number(v)`: a number is itself, `undefined` is NaN, `null` is 0 |
| JsValues.TrimEnd | src/users/users.service.ts:32 | `Number`'s trailing trim leaves a prefix of the text |
| JsValues.StringToNumber | src/users/users.service.ts:32 | `Number` of a string; `StringToNumberOfDigits` states it on the decimal text of a key |
| JsValues.StringToNumberOfDigits | src/users/users.service.ts:32 | `Number(String(n))` is n: the decimal text of a key reads back as that key |
| JsValues.Truthy | src/auth/jwt.strategy.ts:19 | the falsy values of `!payload.userId`; the rejection it drives is stated by `JwtStrategy.Validate` |
| TransactionEntity.Where | src/transactions/transactions.service.ts:33-34 | a `WHERE` keeps exactly the rows that pass, and no more rows than it got |
| TransactionEntity.WhereAppend | src/transactions/transactions.service.ts:33-34 | filtering commutes with concatenating parts of the table |
| TransactionEntity.Total | src/transactions/transactions.service.ts:35 | `SUM(amount)`; its properties are `TotalAppend`, `TotalPositive` and `WhereTotalBounds` |
| TransactionEntity.TotalAppend | src/transactions/transactions.service.ts:35 | `SUM` over two parts is the sum of the parts' sums |
| TransactionEntity.NoneSelected | src/transactions/transactions.service.ts:46-47 | a filter no row passes selects nothing and sums to 0 |
| TransactionEntity.WhereTotalBounds | src/transactions/transactions.service.ts:109-111 | with positive amounts a selection sums to at most the whole, and to more than 0 when non-empty |
| TransactionEntity.TotalPositive | src/transactions/transactions.service.ts:95-99 | with positive amounts a non-empty table sums to more than 0 |
| CreateTransactionDto.Errors | src/transactions/dto/create-transaction.dto.ts:3-16 | each constraint fails exactly when its field is bad: type not exactly "income"/"expense"; amount not a number; amount not > 0; categoryId present but not a number; userId not a number |
| CreateTransactionDto.ValidIff | src/transactions/dto/create-transaction.dto.ts:3-16 | the body is accepted if and only if all four fields meet their constraints |
| CreateTransactionDto.ToNewTransaction | src/transactions/dto/create-transaction.dto.ts:3-16 | an accepted body becomes a row with an enumerated type and a positive amount; type, amount and userId are carried over; a numeric `categoryId` is carried over as is, and it is NULL exactly when absent |
| Transactions.Find | src/transactions/transactions.service.ts:17-19 | `findOneBy({ id })` returns a row of the table with that id, and null exactly when none has it |
| Transactions.IndexOf | src/transactions/transactions.service.ts:115-117 | the first position holding the id, or none exactly when no row has it |
| Transactions.ApplyPatch | src/transactions/transactions.service.ts:26 | the `SET` of `update` on one row: the id never changes; `Update` states the columns it sets |
| Transactions.ApplyPatchIdempotent | src/transactions/transactions.service.ts:26 | applying the same update twice has the effect of applying it once |
| Transactions.TransactionsService.constructor | src/transactions/entities/transactions.entity.ts:7-8 | an empty table whose generated keys start at 1 |
| Transactions.TransactionsService.FindAll | src/transactions/transactions.service.ts:13-15 | every row of the table, of every user |
| Transactions.TransactionsService.FindOne | src/transactions/transactions.service.ts:17-19 | a row with that id, found exactly when one exists |
| Transactions.TransactionsService.Create | src/transactions/transactions.service.ts:21-23 | appends one row with a fresh generated id, the given fields, and `createdAt` defaulting to now; keys stay unique |
| Transactions.TransactionsService.Update | src/transactions/transactions.service.ts:25-28 | only the row with that id changes, and only in the supplied columns; the result is that row re-read, or null when absent |
| Transactions.TransactionsService.Remove | src/transactions/transactions.service.ts:115-117 | exactly the row with that id leaves the table; the rest keep their order |
| Transactions.RemoveAt | src/transactions/transactions.service.ts:115-117 | cutting out one row keeps the keys unique and in range and drops only rows with its id |
| Transactions.FindIsFirst | src/transactions/transactions.service.ts:27 | `findOneBy` returns the row at the first position with the id |
| Transactions.SumOfType | src/transactions/transactions.service.ts:31-43 | `SUM(amount)` for one user and type is NULL exactly when no row matches, else the matching rows' total |
| Transactions.SelectCons | src/transactions/transactions.service.ts:33-34 | the user-and-type selection of a table is its first row's selection followed by the rest's |
| Transactions.DashboardSummary | src/transactions/transactions.service.ts:30-50 | income and expenses are the user's income and expense totals; savings is income minus expenses |
| Transactions.DashboardOfNoRows | src/transactions/transactions.service.ts:46 | a user with no income row sees income 0 |
| Transactions.DashboardIgnoresUnrelatedRows | src/transactions/transactions.service.ts:30-50 | rows of other users, and rows of other types, change none of the three figures, wherever they stand |
| Transactions.OwnedAppend3 | src/transactions/transactions.service.ts:33 | the user filter splits over a three-part table |
| Transactions.OfTypeDrop | src/transactions/transactions.service.ts:34 | a part with no row of the type does not change the type's selection |
| Transactions.DistinctCategories | src/transactions/transactions.service.ts:101-107 | `GROUP BY category` yields each category of the rows exactly once, with NULL as one group |
| Transactions.Shares | src/transactions/transactions.service.ts:109-112 | one `{ category, percent }` per group, with percent the group's share of the total |
| Transactions.SqlSum | src/transactions/transactions.service.ts:95-99 | `SUM` is NULL on no rows and the total otherwise |
| Transactions.Ratio | src/transactions/transactions.service.ts:111 | `(part / whole) * 100`: non-finite exactly when the whole is 0, else the percent p with p * whole = part * 100; `RatioBounds` bounds it |
| Transactions.CategoryUsagePercent | src/transactions/transactions.service.ts:94-113 | one entry per distinct category of the user, in group order; each percent is group sum / user total * 100; no rows give an empty list |
| Transactions.SumGroupTotalsOfNoRows | src/transactions/transactions.service.ts:104-106 | groups over no rows sum to 0 |
| Transactions.SumGroupTotalsCons | src/transactions/transactions.service.ts:104-106 | a row adds its amount to exactly the one group of its category |
| Transactions.GroupsPartitionTotal | src/transactions/transactions.service.ts:101-107 | the category groups partition the rows: their sums add up to the user's total |
| Transactions.SumPercentsOfShares | src/transactions/transactions.service.ts:109-112 | the percents add up to (sum of the groups / total) * 100 |
| Transactions.CategoryPercentsSumTo100 | src/transactions/transactions.service.ts:94-113 | with validated rows, a user's percents add up to exactly 100 |
| Transactions.CategoryPercentBounds | src/transactions/transactions.service.ts:109-112 | with validated rows, every percent is finite and lies in (0, 100] |
| Transactions.GroupPercentBounds | src/transactions/transactions.service.ts:111 | a category that occurs among positive amounts has a share in (0, 100] |
| Transactions.RatioBounds | src/transactions/transactions.service.ts:111 | 0 < part <= whole gives a finite percent in (0, 100] |
| MonthlyTransactions.DistinctTypes | src/transactions/transactions.service.ts:62 | no more groups than rows |
| MonthlyTransactions.DistinctTypesSpec | src/transactions/transactions.service.ts:62 | `GROUP BY type` yields each type of the month's rows exactly once |
| MonthlyTransactions.MonthText | src/transactions/transactions.service.ts:56 | `TO_CHAR(createdAt, 'YYYY-MM')`; `MonthTextIndex` proves it reads back as month index MM - 1 |
| MonthlyTransactions.MonthlyQuery | src/transactions/transactions.service.ts:53-64 | the grouped query: one (month, type, SUM) row per month and type of the user's year, months ascending; `QueryNeverFails` and `MonthlyEntryIsMonthTotal` state what the loop makes of it |
| MonthlyTransactions.MonthGroups | src/transactions/transactions.service.ts:55-62 | one group row per type of the month |
| MonthlyTransactions.Lower | src/transactions/transactions.service.ts:84 | `toLowerCase` maps each character, keeping the length |
| MonthlyTransactions.Upper | src/transactions/transactions.service.ts:84 | ASCII upper-casing maps each character, keeping the length |
| MonthlyTransactions.KindOf | src/transactions/transactions.service.ts:84-86 | the `type.toLowerCase() === 'income'` / `'expense'` tests; stated by `KindOfExact` and `KindOfIgnoresCase` |
| MonthlyTransactions.Skipped | src/transactions/transactions.service.ts:76-78 | `!month \|\| !type \|\| totalAmount == null`; `IgnoredRowsChangeNothing` proves such rows change no entry |
| MonthlyTransactions.MonthIndex | src/transactions/transactions.service.ts:81 | `parseInt(month.split('-')[1], 10) - 1`, NaN as none; stated by `IndexOfSegment`, `DashedDigitsIndex` and `MonthTextIndex` |
| MonthlyTransactions.KindOfIgnoresCase | src/transactions/transactions.service.ts:84-86 | ASCII upper-casing a row's type never changes how the loop treats it |
| MonthlyTransactions.KindOfExact | src/transactions/transactions.service.ts:84-86 | "income", "INCOME", "expense" and "Expense" are income, income, expense, expense |
| MonthlyTransactions.InitialMonths | src/transactions/transactions.service.ts:67-70 | twelve entries, entry i for month i with income 0 and expense 0 |
| MonthlyTransactions.ApplyRow | src/transactions/transactions.service.ts:73-88 | one iteration raises exactly for a kept income/expense row whose month index is not an entry; otherwise it assigns the row's sum to exactly the entry and field it names and changes nothing else |
| MonthlyTransactions.Bucketed | src/transactions/transactions.service.ts:72-89 | when the loop completes, the result has twelve entries in month order |
| MonthlyTransactions.FillMonths | src/transactions/transactions.service.ts:66-89 | the in-place loop over the twelve-entry array computes the fold `Bucketed`, stopping at the first raise |
| MonthlyTransactions.FailureIsFinal | src/transactions/transactions.service.ts:72-89 | once an iteration raises, the rest of the rows do not matter |
| MonthlyTransactions.GetMonthlyTransactions | src/transactions/transactions.service.ts:52-92 | twelve entries in calendar order; when the user's types are exactly "income"/"expense", entry i holds the user's income and expense sums for year Y, month i + 1 |
| MonthlyTransactions.NoWriteByMembership | src/transactions/transactions.service.ts:72-89 | rows none of which writes an entry do not write it |
| MonthlyTransactions.BucketIsLastWrite | src/transactions/transactions.service.ts:84-88 | after the loop each entry holds the sum of the LAST row that writes it, or 0 |
| MonthlyTransactions.LastWriteOfNoWrite | src/transactions/transactions.service.ts:67-70 | an entry no row writes keeps 0 |
| MonthlyTransactions.UntouchedEntryStaysZero | src/transactions/transactions.service.ts:66-89 | an entry no row touches stays `{ month i, 0, 0 }` |
| MonthlyTransactions.LaterRowOverwrites | src/transactions/transactions.service.ts:85-87 | of two rows for the same month and kind, the later one's sum is what remains |
| MonthlyTransactions.LastWriteAppend | src/transactions/transactions.service.ts:72 | over two stretches of rows, the last write comes from the second stretch if it writes at all |
| MonthlyTransactions.MonthTextIndex | src/transactions/transactions.service.ts:81 | the month index of `TO_CHAR`'s "YYYY-MM" is MM - 1 |
| MonthlyTransactions.DashedDigitsIndex | src/transactions/transactions.service.ts:81 | `parseInt("<a>-<b>".split('-')[1], 10) - 1` is b - 1 for digit strings |
| MonthlyTransactions.IndexOfSegment | src/transactions/transactions.service.ts:81 | the month index is the parsed second segment less one |
| MonthlyTransactions.MonthLabelsParseBack | src/transactions/transactions.service.ts:56 | every month's "YYYY-MM" text is non-empty and reads back as that month's index |
| MonthlyTransactions.DashedRowTouchesOneEntry | src/transactions/transactions.service.ts:81-87 | a row whose month is "Y-MM" changes no entry but MM - 1 |
| MonthlyTransactions.IgnoredRowsChangeNothing | src/transactions/transactions.service.ts:76-88 | skipped rows (missing month or type, NULL sum) and rows of other types change no entry, wherever they come after |
| MonthlyTransactions.GroupsMonth | src/transactions/transactions.service.ts:56 | every group row of a month carries that month's text |
| MonthlyTransactions.BlockIndexable | src/transactions/transactions.service.ts:81 | every group row of a month names an index the twelve entries have |
| MonthlyTransactions.EveryRowUpTo | src/transactions/transactions.service.ts:63 | what holds of every month's groups holds of the whole ordered result |
| MonthlyTransactions.BucketedSucceeds | src/transactions/transactions.service.ts:83-88 | rows that all name an existing entry never make the loop raise |
| MonthlyTransactions.QueryNeverFails | src/transactions/transactions.service.ts:53-89 | on the grouped query's rows the loop never raises |
| MonthlyTransactions.GroupRowsWrite | src/transactions/transactions.service.ts:84-87 | a group row of type "income" or "expense" writes its month's entry for its own kind only |
| MonthlyTransactions.MonthGroupsValue | src/transactions/transactions.service.ts:58-62 | within one month's groups, the entry ends with that type's group sum, or 0 without such a group |
| MonthlyTransactions.MonthsUpToValue | src/transactions/transactions.service.ts:62-63 | over the months in order, only month i + 1's groups decide entry i |
| MonthlyTransactions.ForeignMonthsSilent | src/transactions/transactions.service.ts:81 | the groups of any other month never write entry i |
| MonthlyTransactions.MonthKinds | src/transactions/transactions.service.ts:60-62 | the grouped types of a month are among the user's types |
| MonthlyTransactions.QueryPicksMonth | src/transactions/transactions.service.ts:53-64 | entry i is decided by the groups of month i + 1 alone |
| MonthlyTransactions.EntryIsMonthTotal | src/transactions/transactions.service.ts:53-87 | with exact types, entry i's income (expense) is the user's income (expense) sum for that year and month i + 1 |
| MonthlyTransactions.MonthlyEntryIsMonthTotal | src/transactions/transactions.service.ts:52-92 | with exact types, the loop succeeds and entry i holds both monthly sums |
| Users.WithoutHash | src/auth/auth.service.ts:28 | the rest of the user: every field but `passwordHash`, unchanged |
| Users.FindByEmail | src/users/users.service.ts:27-29 | a user with that email, null exactly when none has it |
| Users.FindBy | src/users/users.service.ts:27-33 | `findOneBy({ <column>: k })`: a user whose column holds k, null exactly when none does |
| Users.FindByAppend | src/users/users.service.ts:27-29 | a user appended with a column value no earlier user has is found by that value |
| Users.FindById | src/users/users.service.ts:31-33 | the user whose id is `Number(userId)`, null when it is NaN or matches no user |
| JwtStrategy.Validate | src/auth/jwt.strategy.ts:18-29 | 'Invalid token' exactly for a missing payload or falsy userId; 'User not found' exactly when `Number(userId)` matches no user; otherwise exactly `{ userId, username }` of the payload, with no `id` property |
| JwtStrategy.UsernameComesFromToken | src/auth/jwt.strategy.ts:28 | the identity's username is the token's even when the stored user's differs |
| AuthService.ValidateUser | src/auth/auth.service.ts:25-32 | succeeds exactly when a user has that email and `compare` accepts the password, returning that user without the hash; every failure is 'Invalid credentials' |
| AuthService.FailuresIndistinguishable | src/auth/auth.service.ts:27-31 | an unknown email and a wrong password give the same result |
| AuthService.Login | src/auth/auth.service.ts:34-40 | the token signs exactly `{ userId: id, username }`; the role is the user's |
| AuthService.LoginPayload | src/auth/auth.service.ts:35 | `{ userId: user.id, username: user.username }`; `LoginPayloadValidates` proves `validate` accepts it |
| AuthService.LoginPayloadValidates | src/auth/auth.service.ts:35 | a login payload of a stored user with id != 0 passes `validate` with that id |
| AuthService.NewUser | src/auth/auth.service.ts:14-22 | the stored row holds hash(password); username and email pass through; role defaults to "user" |
| AuthService.RegisterThenLogin | src/auth/auth.service.ts:14-39 | after registering, the same credentials pass `validateUser` and the issued token resolves to the new user |
| AuthService.FindByEmailAppend | src/users/users.service.ts:27-29 | an account with a new email is found by it after it is added |
| AuthService.AddAccount | src/users/entities/user.entity.ts:8-12 | adding an account with a fresh email, username and key keeps ids, emails and usernames unique |
| AuthService.UserRepository.constructor | src/users/entities/user.entity.ts:6-7 | an empty users table |
| AuthService.UserRepository.Register | src/auth/auth.service.ts:14-23 | fails exactly on a duplicate email or username and then changes nothing; otherwise appends the hashed account under the next key and returns it, findable by email |

## Left out

- Controllers, routing, guards, module wiring and the database configuration. This
  includes the controllers passing `(userId, id)` to service methods that take `(id)`,
  and `req.user.id` reading the identity's absent `id`. `JwtStrategy.Validate` states
  that absent `id`.
- Ownership scoping of CRUD: the service as written ignores the user, and so does the model.
- `save` of a body that carries an existing id, which TypeORM turns into an upsert.
  `Create` models an insert with a generated key.
- Transactions.TransactionsService.Update: the patch never changes the id, and an empty
  patch, which TypeORM rejects with an error, is applied as a no-op.
- Foreign keys, `ON DELETE CASCADE` / `SET NULL`, and the categories service.
- Locale month names (`toLocaleString`): each entry carries its month index 0..11.
- bcrypt hashing and comparison, JWT signing and verification, salt randomness, reading
  the bearer token from the `Authorization` header, and the `JWT_SECRET` environment
  variable. These are function parameters or are left out.
- The clock, which is the `now` parameter, and the controller's default year.
- `parseFloat` and floating point: amounts are integer cents and percentages exact reals.
- JsValues.ToNumber: strings are read as optionally signed decimal digits after trimming;
  hex, exponent and fraction forms, and non-finite numbers, are not modelled.
- JsValues.StringToNumber: only trimmed, optionally signed decimal digits are read; hex,
  exponent, fraction and `Infinity` forms read as NaN where `Number` gives a value.
- MonthlyTransactions.Lower: `toLowerCase` maps ASCII letters only. Only U+212A KELVIN
  SIGN (to 'k') and U+0130 (to 'i' followed by U+0307) lower onto ASCII letters; neither
  can make a string lower to "income" or "expense", so the comparison comes out as
  JavaScript's does.
- Oracle's `TO_CHAR`/`EXTRACT` engine semantics, time zones, an empty string read as
  NULL, and upper-cased or prefixed result aliases. Query rows carry `month`, `type` and
  `totalAmount` directly.
- The order of the groups within a month and of the category groups, which SQL leaves
  unspecified: the model uses order of first appearance.
- Dates before year 0, and the time of day of `createdAt`.
- Async sequencing, concurrent requests, and snapshots torn between the separate summary
  queries.
- `CreateUserDto`'s `IsEmail` / `MinLength` checks, and `UsersService` beyond the three
  lookups and the insert.
