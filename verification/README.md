# Budget tracker: a Dafny model of the transaction API

This project models the core of a small budget-tracking web service:

- a single `transactions` table of income and expense rows;
- the HTTP handlers that create, read, update, delete and list the rows;
- a summary endpoint that totals income and expenses and breaks the expenses down by category.

Every handler is a pure function over an immutable store. Its contract states what the handler returns and how the table changes.

Modules:

- `Outcomes`: `Option`, `Result`, and the three failure kinds.
  - `ValidationError` is the 422 response for a request that fails the field constraints.
  - `NotFound` is the 404 response for an unknown id.
  - `IntegrityError` is a commit the database refuses.
- `Dates`: calendar dates, their validity (years 1..9999), chronological order, and a day number used as the sort key.
- `Schemas`: the request payloads and their field constraints, plus the summary response shapes.
  - An update field can be left out, sent as null, or given a value (`Input`). Only fields that were not left out are applied.
- `Models`: the stored `Transaction` row.
  - Its constructor derives the `month` and `year` helper columns from the date.
  - `ApplyPatch` is the attribute assignment an update performs. It does **not** re-derive those columns.
- `StableSort`: a stable insertion sort into non-increasing key order. It comes with sortedness, permutation and stability proofs, and a proof that this is the only stable sorted arrangement.
- `TransactionStore`: the table as `map<int, Transaction>` plus the insertion order of the ids, and the create/get/update/delete/list handlers.
- `Summaries`: the summary handler.
  - It has reference definitions for the income total, the expense total, per-category expense totals and first-seen category order.
  - The category-map loop and the sorted breakdown are proved against those definitions.
- `Scenarios`: worked examples on concrete rows.

Modelling choices that follow the code:

- **Database engine.** The connection string can name any database (budget-tracker/backend/database.py:11). The model assumes the default, SQLite, for two behaviours the code leaves to the engine.
  - *Ids.* A new row gets the largest live id plus one, or 1 for an empty table. This is SQLite's rowid rule for an integer primary key declared without the `AUTOINCREMENT` keyword. The column's `autoincrement=True` (budget-tracker/backend/models.py:15) does not emit that keyword: for SQLite, SQLAlchemy emits it only when the table sets `sqlite_autoincrement`. So insertion order is also ascending id order, and the id of a deleted newest row can be handed out again.
  - *Scan order.* A query without `ORDER BY` returns rows in insertion order, which is SQLite's table scan order. The summary query (backend/main.py:162) is such a query. Its row order decides the first-seen order of the category map, and so the order of breakdown entries with equal totals (`Summaries.BreakdownOrder`, `Scenarios.TieKeepsFirstSeenOrder`).
- **Validation first.** Payload and query parameters are checked before the handler body runs.
  - An invalid update of an unknown id is a `ValidationError`, not a `NotFound`.
  - A month query parameter outside 1..12 is refused, not ignored.
  - Empty text filters and a year of 0 are ignored, because the handlers test them for truthiness.
- **Create defaults.** The handler always passes a date, defaulting to today, so `month` and `year` always agree with the date of a created row. A missing note becomes `""`. "Today" is a parameter of `Create`.
- **Nulls on update.** An update that sets `amount`, `category`, `type` or `date` to null is refused at commit: those columns are NOT NULL. The store is left unchanged. Setting `note` to null stores null.
- **Stale month and year.** An update that changes the date leaves `month` and `year` as they were, so the row stays listed and summarised under its old month. Only the constructor derives them (budget-tracker/backend/models.py:28-30). The update loop assigns attributes with `setattr` and never re-derives them (backend/main.py:124-126). See `Models.DateChangeLeavesMonthStale` and `TransactionStore.MovedRowListedUnderOldMonth`.
- **List order.** The list is ordered by date, newest first. The database leaves the order of rows with equal dates open. The model breaks such ties by insertion order, but its contract claims only the date order and the set of rows returned.
- **Breakdown order.** The breakdown is Python's stable `sorted` by descending total over an insertion-ordered dict. Categories with equal totals keep the order in which their first expense was seen.

## Model

| member | source | states |
|---|---|---|
| Schemas.ParseType | backend/schemas.py:13-15 | exactly the spellings "income" and "expense" are accepted, and each parses back to its own spelling |
| Schemas.TypeNameRoundTrip | backend/schemas.py:13-15 | printing a transaction type and parsing the text gives the type back |
| Schemas.ValidCreate | backend/schemas.py:29-34 | a create payload is valid exactly when the update supplying all of its fields is: create and update apply the same rule to each field |
| Schemas.ValidUpdate | backend/schemas.py:51-56 | every update field is optional: a payload that supplies no value is valid, even when it sets fields to null |
| Dates.OrdinalOrder | backend/main.py:89 | on valid dates the sort key orders rows exactly as the calendar does, and equal keys mean equal dates |
| Models.Construct | budget-tracker/backend/models.py:26-30 | the constructor copies the given fields; with a date, month and year agree with it; without one, both helper columns stay at their default 0 |
| Models.ApplyPatch | backend/main.py:124-128 | the update is refused exactly when a NOT NULL column is set to null; otherwise exactly the supplied fields change, id/month/year never change, and a well-formed row stays well-formed |
| Models.DateChangeLeavesMonthStale | backend/main.py:124-126 | assigning a date in another month leaves the row's month column disagreeing with its date |
| Models.UpdateWithoutDateKeepsConsistency | backend/main.py:124-126 | an update that does not touch the date keeps month and year in agreement with it |
| TransactionStore.NextId | budget-tracker/backend/models.py:15 | the next id is positive, unused, and larger than every live id |
| TransactionStore.Create | backend/main.py:95-105 | fails with a validation error exactly when the payload breaks a constraint, leaving the table unchanged; otherwise inserts one row under a fresh id with the payload's fields, today's date when none is given, note "" when none is given, and month/year matching the date; the table invariant is kept |
| TransactionStore.Get | backend/main.py:111-114 | returns the stored row exactly when the id is present, otherwise not-found |
| TransactionStore.Update | backend/main.py:120-130 | validation error exactly when the payload is invalid; not-found exactly when it is valid and the id is absent; integrity error exactly when a required column is nulled; any error leaves the table unchanged; on success only that row changes, as the payload prescribes, and the invariant is kept |
| TransactionStore.Remove | backend/main.py:139 | removing an id from the insertion order keeps every other id and keeps the order ascending |
| TransactionStore.Delete | backend/main.py:136-140 | not-found exactly when the id is absent; otherwise exactly that row is removed and the invariant is kept |
| TransactionStore.CreateThenGet | backend/main.py:95-114 | a valid create is followed by a successful get of the same row |
| TransactionStore.UpdateThenGet | backend/main.py:120-130 | after a successful update, get returns the updated row |
| TransactionStore.DeleteThenGet | backend/main.py:136-140 | after a delete the id is not found, whether or not it existed |
| TransactionStore.DeleteKeepsOthers | backend/main.py:136-140 | a delete leaves every other row's get result as it was |
| TransactionStore.RowsInOrder | backend/main.py:78 | the rows read in insertion order are exactly the stored rows of the listed ids, one per id when all are present |
| TransactionStore.Select | backend/main.py:80-87 | the filtered rows are exactly the input rows that pass every constraining filter |
| TransactionStore.List | backend/main.py:69-89 | validation error exactly when the month parameter is outside 1..12; otherwise the result is a rearrangement of the matching rows, in non-increasing date order |
| TransactionStore.RecordsAreRows | backend/main.py:78 | under the invariant, a row is read from the table exactly when it is stored under its own id |
| TransactionStore.ListReturnsExactlyMatches | backend/main.py:78-89 | a row is listed exactly when it is stored and passes every constraining filter |
| TransactionStore.SelectedRows | backend/main.py:155-162 | under the invariant, filtering the table yields each stored row that passes the filters exactly once, in ascending id order, and nothing else |
| TransactionStore.ListNewestFirst | backend/main.py:89 | no listed row has an earlier date than a row listed after it |
| TransactionStore.DropBlank | backend/main.py:80-87 | dropping blank filter values removes exactly the empty category and type and a year of 0; every other value, and the month, is kept |
| TransactionStore.ListIgnoresBlankFilters | backend/main.py:80-87 | an empty category or type filter or a year of 0 lists the same as leaving it out |
| TransactionStore.UnfilteredListHasEveryRow | backend/main.py:78-89 | with no filters every stored row is listed, and the list has exactly as many entries as the table, so each row appears once |
| TransactionStore.OrderCoversRows | backend/main.py:78 | the insertion order names every stored row exactly once |
| TransactionStore.MovedRowListedUnderOldMonth | backend/main.py:84-85 | after an update moves a row's date into another month, the month filter still finds it under the old month and not under the new one |
| StableSort.SortDescPermutes | backend/main.py:175 | sorting neither adds, drops nor duplicates an entry |
| StableSort.SortDescSorted | backend/main.py:175 | the sorted entries are in non-increasing key order |
| StableSort.SortDescStable | backend/main.py:175 | entries with equal keys leave the sort in the order they entered it |
| StableSort.StableArrangementUnique | backend/main.py:175 | two arrangements sorted by key that agree on the order within every group of ties are identical |
| StableSort.SortDescIsTheStableSort | backend/main.py:175 | any sorted arrangement that keeps ties in input order is exactly the sort's result |
| Summaries.AddAmount | backend/main.py:171 | adding to a known category keeps the category order, a new category goes last, the looked-up total of that category grows by the amount, and all other totals are untouched |
| Summaries.Accumulate | backend/main.py:168-171 | the category map lists the expense categories in first-seen order, and its totals add up to the expense total |
| Summaries.AccumulateMatchesReference | backend/main.py:168-171 | looking a category up in the category map gives the sum of that category's expense amounts |
| Summaries.Breakdown | backend/main.py:173-176 | the breakdown is a rearrangement of the category map's entries in non-increasing order of total |
| Summaries.Matched | backend/main.py:155-162 | under the invariant, the summary covers each stored row whose month and year pass the filters exactly once, in ascending id order, and no other row |
| Summaries.FirstSeenSpec | backend/main.py:168-171 | the first-seen list names every expense category exactly once and nothing else |
| Summaries.AccumulateIgnoresIncome | backend/main.py:169-170 | the category map built from all rows equals the one built from the expense rows alone |
| Summaries.BreakdownIgnoresIncome | backend/main.py:168-176 | income rows never affect the breakdown |
| Summaries.BreakdownOrder | backend/main.py:173-176 | breakdown totals are non-increasing, and categories with equal totals keep their first-seen order |
| Summaries.BreakdownCategories | backend/main.py:168-176 | the breakdown has one entry per expense category of the rows and names no other category |
| Summaries.BreakdownTotals | backend/main.py:168-176 | each breakdown entry carries the sum of its category's expense amounts |
| Summaries.BreakdownSumsToExpenses | backend/main.py:164-176 | the breakdown totals add up to the total of all expenses |
| Summaries.GetSummary | backend/main.py:145-183 | validation error exactly when the month parameter is outside 1..12; otherwise the balance is income minus expenses |
| Summaries.SummaryContents | backend/main.py:155-183 | the totals are the income and expense sums of the rows matched by month and year, the count is their number, and the breakdown is sorted, one entry per expense category, with per-category totals adding up to the expense total |
| Summaries.SummaryCountMatchesList | backend/main.py:155-162 | the summary counts exactly the rows the list endpoint returns for the same month and year |
| Summaries.SummaryCountsStoredMatches | backend/main.py:155-182 | the count is the number of stored rows that the month and year filters match |
| Summaries.UnfilteredSummaryCountsAll | backend/main.py:162-182 | with no filters the count is the number of stored rows |
| Summaries.EmptySummary | backend/main.py:162-183 | with no matching rows, every total and the count are zero and the breakdown is empty |
| Scenarios.BreakdownExample | backend/main.py:168-176 | expenses Food 30, Rent 100 and Food 20 break down as Rent 100 then Food 50 |
| Scenarios.TieKeepsFirstSeenOrder | backend/main.py:168-176 | two categories with equal totals appear in the order of their first expense, and an income row between them is ignored |
| Scenarios.CreateThenSummarize | backend/main.py:95-105 | one expense of 45.90 dated 2025-03-15 in an empty table gets id 1, month 3 and year 2025, and the 2025 summary shows it as the only expense |

## Left out

- Amounts are exact rationals. Binary floating point and the `round(..., 2)` applied to the summary totals are not modelled. Where the code is exact, the model is exact too.
- Summaries.GetSummary: its totals are unrounded sums, so they are not rounded to two decimals as the response is.
- The response projection `TransactionResponse`, which drops `month` and `year`, is not modelled. Handlers return the whole row.
- The `CategoryType` enumeration is not modelled. No payload is checked against it; categories are free text.
- The default empty `categories` list of `SummaryResponse` is not modelled. The handler always sets it.
- Pydantic's coercion of JSON values (numeric strings, date strings) is not modelled. A payload reaches the model already typed, and a date string that names no calendar day is an invalid date.
- The database session, its connection setup and its concurrency are not modelled. Each handler is one atomic step on the store.
- The server-side `current_date()` default of the `date` column is not modelled separately. It is never reached through the API, because create always passes a date. `Models.Construct` still models the no-date branch of the constructor.
- `date.today()` becomes the `today` parameter of `Create`.
- Ids and year filters outside SQLite's signed 64-bit integer range are not modelled. The database driver cannot bind such a value and the request fails with an error. The model treats such an id as absent and such a year as a filter that matches no row.
- Other database engines are not modelled. Their id allocation, and the row order of a query without `ORDER BY`, may differ from SQLite's.
- The root route serving the frontend, static files, CORS and the browser client are not part of this model.
- `__repr__` of the row is not modelled. It has no behaviour beyond formatting.
