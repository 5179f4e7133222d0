# Expense tracker: budget engine and ledger

A Dafny model of the spending tracker in `main.py`. It keeps a ledger of expense
records and, on demand, derives a dashboard from it. The dashboard has four
figures: the total spent, the budget left out of a fixed starting amount, the days
left until a fixed deadline, and a recommended limit for today.

- `Calendar.dfy`: dates as whole-day numbers, counted the way Python's `date.toordinal`
  counts them. It proves that consecutive calendar days get consecutive numbers, so
  `END_DATE - today` in days is a difference of day numbers.
- `Expenses.dfy`: the `Expense` record and `TotalSpent`, the running sum of the
  amounts. It proves that this sum adds up over concatenation, loses exactly one
  amount when one record is taken out, and does not depend on record order.
- `Budget.dfy`: the engine behind `/dashboard`. These are pure functions of the
  records, today's day number, the starting budget (47300.0) and the deadline
  (2026-02-10), plus lemmas about them.
- `Ledger.dfy`: the `expenses` table as a class `Ledger`. It has a `records`
  sequence in storage order and a `nextId` counter. `Add` and `Remove` change it and
  `History` reads it. `Add` states its new state outright. `Remove` and `History`
  are specified by the pure functions `Delete`, `Listing` and `Take`, whose
  properties are proved as lemmas.

The record `Expenses.Expense` has the four columns of the `expenses` table
(main.py:42-47). `Budget.Snapshot` has the figures of the dashboard response
(main.py:114-120), before rounding.

The clock is a parameter: `today` is passed to `Add` and to `Dashboard`/`Compute`.
Money is exact `real` arithmetic.

## Model

| member | source | states |
|---|---|---|
| Calendar.Ordinal | main.py:79 | the day number of a date, as Python's `toordinal` computes it: 0001-01-01 is day 1, and each date of a year falls after all days of earlier years and no later than the year's last day; NextDayOrdinal and YearLength below make it a count of days |
| Calendar.NextDayOrdinal | main.py:105-107 | the day after any date (also across a month or year end) has day number one higher, so a difference of day numbers counts whole calendar days |
| Calendar.YearLength | main.py:79 | a year adds 366 days when it is a Gregorian leap year and 365 otherwise |
| Budget.DailyLimit | main.py:109-111 | with days left > 0 the limit times the days left equals the remainder; with days left <= 0 the limit is the whole remainder; no division by zero or by a negative count; the limit's sign is that of the remainder |
| Budget.Compute | main.py:98-111 | for every ledger, date, budget and deadline: total spent is the sum of the amounts; remaining = start - total, negative exactly when overspent; days left = deadline - today, positive before the deadline, 0 on it, negative after; with days left > 0 the limit times the days left is the remainder, otherwise the limit is the remainder, and its sign is the remainder's; OrderIndependent and RecordAdded relate snapshots of different ledgers |
| Budget.Dashboard | main.py:94-120 | the snapshot with the program's constants: the remainder is 47300 less the total, days are counted to day 739657 (2026-02-10), and the daily-limit rule holds for that deadline |
| Budget.EmptyLedger | main.py:100-103 | an empty ledger gives a total of 0 and leaves the whole starting budget |
| Budget.OrderIndependent | main.py:98-100 | two record lists with the same elements in any order give the same dashboard |
| Budget.RecordAdded | main.py:88-90 | one more record raises the total and lowers the remainder by exactly its amount; days left are unchanged |
| Budget.RemainingAtMostStart | main.py:100-103 | when no amount is negative the remainder never exceeds the starting budget |
| Budget.ScenarioFreshStart | main.py:100-111 | budget 1000, ten days left, nothing spent: remainder 1000, limit 100 |
| Budget.ScenarioAfterFood | main.py:100-111 | after 300 spent on food the total is 300, the remainder 700 and the limit 70 |
| Budget.ScenarioDeadlineToday | main.py:110-111 | on the deadline day with 50 left: days left 0, limit 50 |
| Budget.ScenarioPastDeadline | main.py:110-111 | five days past the deadline and 20 overspent: days left -5, limit -20 |
| Expenses.TotalSpent | main.py:100 | the running total of the amounts, non-negative when no amount is negative; the lemmas below prove it additive over concatenation, lowered by exactly one amount when one record is taken out, and independent of record order |
| Expenses.TotalSpentAppend | main.py:100 | the total of two record lists together is the sum of their totals |
| Expenses.TotalSpentRemoveAt | main.py:100 | taking any one record out lowers the total by that record's amount |
| Expenses.TotalSpentPermutation | main.py:98-100 | the total is the same for every ordering of the same records |
| Ledger.IndexOfId | main.py:165 | returns the first position holding the id, every earlier record has another id, and it returns None exactly when no record has the id |
| Ledger.Delete | main.py:165-168 | the records after a delete: unchanged when no record has the id, one shorter when one has, and never holding a record the old ones did not; DeletePresent proves it takes out exactly the matching record |
| Ledger.DeletePresent | main.py:165-168 | deleting a present id removes exactly that record: the others stay in order, the id is gone, and the removed record plus the rest is the old multiset |
| Ledger.DeleteIdempotent | main.py:165-169 | deleting the same id a second time changes nothing |
| Ledger.DeleteAscending | main.py:165-168 | after a delete the ids are still strictly ascending in storage order |
| Ledger.DeleteTotal | main.py:165-168 | a delete lowers the total by the removed record's amount, and by 0 when the id is absent |
| Ledger.AddThenDelete | main.py:88-90 | adding a record with a fresh id and then deleting that id restores the records exactly |
| Ledger.AppendAscending | main.py:44 | appending a record whose id is above every stored id keeps the ids strictly ascending |
| Ledger.Listing | main.py:132 | the listing has as many records as storage, and position k holds the k-th newest record |
| Ledger.ListingSortedPermutation | main.py:132 | the listing is strictly id-descending and has the same records as storage |
| Ledger.ListingIsSortByIdDesc | main.py:132 | every id-descending arrangement of the stored records equals the listing, so reversing storage order sorts by id descending |
| Ledger.DescendingUnique | main.py:132 | two id-descending sequences with the same records are equal |
| Ledger.ListingTop | main.py:132 | every record outside the first m of the listing has a smaller id than each of those m |
| Ledger.Take | main.py:132 | with limit >= 0 the result has min(limit, length) records; with a negative limit it is everything; it is always a prefix |
| Ledger.TakeMonotone | main.py:132 | a smaller limit gives a prefix of a larger limit's result |
| Ledger.HistoryNewest | main.py:130-132 | the history is id-descending, holds only stored records, and every record it leaves out is older than every record it shows |
| Ledger.Ledger.constructor | main.py:51 | a new ledger is empty and its first id will be 1 |
| Ledger.Ledger.Add | main.py:84-91 | appends exactly one record with the given amount and description, dated today, under an id no existing record has; the old records are unchanged and the total grows by the amount |
| Ledger.Ledger.Remove | main.py:163-169 | removes the record with the id and reports whether one was there; when absent the ledger is unchanged; afterwards no record has the id |
| Ledger.Ledger.History | main.py:123-137 | with `limit` defaulting to 10, returns the first `limit` records of the id-descending listing (all when limit < 0) with `count` equal to their number, strictly id-descending, and never leaving out a newer record than one it shows |
| Ledger.RemoveTwice | main.py:163-169 | a second delete of the same id reports no record and leaves the records as the first delete left them |
| Ledger.AddThenRemove | main.py:84-91 | adding a record and then deleting it by its new id restores the records and the total spent exactly |

`Ledger.Ledger.Add` also models the form endpoint `ui_add_expense` (main.py:155-159),
which builds and commits the record in the same way.

## Left out

- HTTP routing, HTML and redirect responses, Jinja templates (main.py:7-17, 64, 141-151, 160, 169): transport and presentation.
- Database URL reading and rewriting, engine and session setup, `create_all`, `get_db` session scoping (main.py:21-37, 51, 68-73): configuration and I/O.
- `round(..., 2)` on the dashboard outputs and `Float` storage (main.py:115-118, 45): floating point. The model computes exactly, as the figures are before presentation rounding.
- `date.today()` (main.py:47, 106): the clock is the `today` parameter.
- Input validation: `ExpenseCreate` (main.py:56-59) only checks types, so `Add` accepts any amount and description.
- Concurrency and transaction isolation between requests.
- Ledger.Ledger.Add: ids come from a counter that never reuses a value. This is how a PostgreSQL sequence behaves. On the SQLite fallback (main.py:29-30), a table without AUTOINCREMENT takes the largest live id plus one, so the id of a deleted newest record can come back. The model's promise that a new id differs from every live record's id holds on both backends. "Never reused after deletion" holds only for the counter.
- Ledger.Ledger.History: `LIMIT` with a negative value is modelled as "no limit", which is how SQLite reads it; PostgreSQL rejects it. A limit of 0 returns no records, as SQL `LIMIT 0` does; it does not mean "all".
- Ledger.Ledger.Remove: the endpoint answers with a redirect and returns no flag. The `removed` result only reports which branch of `if expense:` was taken.
- Ledger.Ledger.History: the stored sequence is kept in ascending id order, an invariant of `Valid`. So the `ORDER BY id DESC` query is modelled as reading storage from the newest end. `Ledger.ListingIsSortByIdDesc` proves that this equals sorting by id.
