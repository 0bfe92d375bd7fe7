/** The stored transaction record and the two ways its fields are set:
    construction, which derives month and year from the date, and attribute
    assignment during an update, which does not. */
module Models {
  import opened Outcomes
  import opened Dates
  import opened Schemas

  /** One row of the transactions table. `month` and `year` are helper
      columns for filtering; `note` is the only nullable column. */
  datatype Transaction = Transaction(
    id: int,
    amount: real,
    category: string,
    ty: TxType,
    date: Date,
    note: Option<string>,
    month: int,
    year: int)

  /** The bounds a stored row obeys: the column widths (category 50, note 255)
      together with the payload rules every write enforces. The type column's
      width of 10 holds either spelling, so it adds no constraint. */
  predicate WellFormed(t: Transaction) {
    && ValidAmount(t.amount)
    && ValidCategory(t.category)
    && (t.note.Some? ==> ValidNote(t.note.value))
    && ValidDate(t.date)
  }

  /** The helper columns agree with the date. */
  predicate Consistent(t: Transaction) {
    t.month == t.date.month && t.year == t.date.year
  }

  /** Builds and inserts a row. The constructor copies month and year from the
      date only when a date is passed; otherwise the columns keep their
      default 0 while the database fills in the date with its current day
      (`today`). A missing note takes the column default "". */
  function Construct(
    id: int, amount: real, category: string, ty: TxType,
    date: Option<Date>, note: Option<string>, today: Date): (t: Transaction)
    ensures t.id == id && t.amount == amount && t.category == category && t.ty == ty
    ensures t.date == (if date.Some? then date.value else today)
    ensures t.note == Some(if note.Some? then note.value else "")
    ensures date.Some? ==> Consistent(t)
    ensures date.None? ==> t.month == 0 && t.year == 0
  {
    var d := date.GetOr(today);
    Transaction(
      id, amount, category, ty, d, Some(note.GetOr("")),
      if date.Some? then d.month else 0,
      if date.Some? then d.year else 0)
  }

  /** The payload sets a NOT NULL column to null. */
  predicate ClearsRequired(p: UpdatePayload) {
    p.amount.Null? || p.category.Null? || p.ty.Null? || p.date.Null?
  }

  /** `after` is `before` with exactly the supplied fields of `p` assigned:
      the id and the month and year columns are never assigned. */
  predicate Patched(before: Transaction, p: UpdatePayload, after: Transaction) {
    && after.id == before.id
    && after.month == before.month
    && after.year == before.year
    && (p.amount.Unset? ==> after.amount == before.amount)
    && (p.amount.Given? ==> after.amount == p.amount.value)
    && (p.category.Unset? ==> after.category == before.category)
    && (p.category.Given? ==> after.category == p.category.value)
    && (p.ty.Unset? ==> after.ty == before.ty)
    && (p.ty.Given? ==> Some(after.ty) == ParseType(p.ty.value))
    && (p.date.Unset? ==> after.date == before.date)
    && (p.date.Given? ==> after.date == p.date.value)
    && (p.note.Unset? ==> after.note == before.note)
    && (p.note.Null? ==> after.note == None)
    && (p.note.Given? ==> after.note == Some(p.note.value))
  }

  /** Assigns each supplied field of a validated payload to the row, as the
      update loop's attribute assignments do; `None` when the commit would be
      refused because a required column was set to null. */
  function ApplyPatch(t: Transaction, p: UpdatePayload): (r: Option<Transaction>)
    requires ValidUpdate(p)
    ensures r.None? <==> ClearsRequired(p)
    ensures r.Some? ==> Patched(t, p, r.value)
    ensures r.Some? && WellFormed(t) ==> WellFormed(r.value)
  {
    if ClearsRequired(p) then None
    else
      Some(t.(
        amount := if p.amount.Given? then p.amount.value else t.amount,
        category := if p.category.Given? then p.category.value else t.category,
        ty := if p.ty.Given? then ParseType(p.ty.value).value else t.ty,
        date := if p.date.Given? then p.date.value else t.date,
        note := match p.note
                case Unset => t.note
                case Null => None
                case Given(n) => Some(n)))
  }

  /** Assigning a date that moves a consistent row to another month leaves
      its month column behind: the helper columns go stale. */
  lemma DateChangeLeavesMonthStale(t: Transaction, p: UpdatePayload)
    requires Consistent(t) && ValidUpdate(p)
    requires p.date.Given? && p.date.value.month != t.date.month
    ensures ApplyPatch(t, p).Some? ==> !Consistent(ApplyPatch(t, p).value)
  {
  }

  /** An update that does not assign the date keeps a consistent row consistent. */
  lemma UpdateWithoutDateKeepsConsistency(t: Transaction, p: UpdatePayload)
    requires Consistent(t) && ValidUpdate(p) && p.date.Unset?
    ensures ApplyPatch(t, p).Some? ==> Consistent(ApplyPatch(t, p).value)
  {
  }
}
