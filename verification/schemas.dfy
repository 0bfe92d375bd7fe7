/** Request payloads and response shapes of the API, with the field
    constraints a payload must meet before any handler runs. */
module Schemas {
  import opened Outcomes
  import opened Dates

  /** The two kinds of transaction. */
  datatype TxType = Income | Expense

  /** The wire and storage spelling of a transaction type. Both spellings fit
      the ten-character `type` column. */
  function TypeName(t: TxType): (s: string)
    ensures s == "income" || s == "expense"
  {
    match t
    case Income => "income"
    case Expense => "expense"
  }

  /** Accepts exactly the two spellings of `TypeName` and nothing else. */
  function ParseType(s: string): (r: Option<TxType>)
    ensures r.Some? <==> (s == "income" || s == "expense")
    ensures r.Some? ==> TypeName(r.value) == s
  {
    if s == "income" then Some(Income)
    else if s == "expense" then Some(Expense)
    else None
  }

  lemma TypeNameRoundTrip(t: TxType)
    ensures ParseType(TypeName(t)) == Some(t)
  {
  }

  /** An optional payload field: left out of the request, sent as an explicit
      null, or given a value. Partial updates apply only the fields that were
      not left out. */
  datatype Input<T> = Unset | Null | Given(value: T)

  /** The body of a create request. `date` and `note` are `None` when left out
      or sent as null. */
  datatype CreatePayload = CreatePayload(
    amount: real,
    category: string,
    ty: string,
    date: Option<Date>,
    note: Option<string>)

  /** The body of an update request: every field may be left out. */
  datatype UpdatePayload = UpdatePayload(
    amount: Input<real>,
    category: Input<string>,
    ty: Input<string>,
    date: Input<Date>,
    note: Input<string>)

  predicate ValidAmount(a: real) {
    a > 0.0
  }

  predicate ValidCategory(c: string) {
    1 <= |c| <= 50
  }

  predicate ValidNote(n: string) {
    |n| <= 255
  }

  /** Constraints a create payload meets; a date given as text must also name
      a real calendar day to be parsed at all. Create and update share the
      per-field rules, so a create payload is valid exactly when the update
      supplying all of its fields is. */
  function ValidCreate(p: CreatePayload): (ok: bool)
    ensures ok <==> ValidUpdate(AsFullUpdate(p))
  {
    && ValidAmount(p.amount)
    && ValidCategory(p.category)
    && ParseType(p.ty).Some?
    && (p.date.Some? ==> ValidDate(p.date.value))
    && (p.note.Some? ==> ValidNote(p.note.value))
  }

  /** Constraints an update payload meets: each given field obeys the rule the
      same field obeys on create; left-out and null fields always pass, so a
      payload that supplies no value is valid whatever it sets to null. */
  function ValidUpdate(p: UpdatePayload): (ok: bool)
    ensures (!p.amount.Given? && !p.category.Given? && !p.ty.Given?
             && !p.date.Given? && !p.note.Given?) ==> ok
  {
    && (p.amount.Given? ==> ValidAmount(p.amount.value))
    && (p.category.Given? ==> ValidCategory(p.category.value))
    && (p.ty.Given? ==> ParseType(p.ty.value).Some?)
    && (p.date.Given? ==> ValidDate(p.date.value))
    && (p.note.Given? ==> ValidNote(p.note.value))
  }

  /** The update payload that supplies every field of a create payload; a
      missing date is left out and a missing note is sent as null. */
  function AsFullUpdate(p: CreatePayload): UpdatePayload {
    UpdatePayload(
      Given(p.amount),
      Given(p.category),
      Given(p.ty),
      if p.date.Some? then Given(p.date.value) else Unset,
      if p.note.Some? then Given(p.note.value) else Null)
  }

  /** One row of the expense breakdown. */
  datatype CategorySummary = CategorySummary(category: string, total: real)

  /** The result of the summary query. */
  datatype SummaryResponse = SummaryResponse(
    totalIncome: real,
    totalExpenses: real,
    balance: real,
    transactionCount: int,
    categories: seq<CategorySummary>)
}
