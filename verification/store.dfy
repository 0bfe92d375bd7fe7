/** The transactions table as a map from id to row plus the order in which
    rows were inserted, with the create, get, update, delete and list
    handlers as pure functions over it. */
module TransactionStore {
  import opened Outcomes
  import opened Dates
  import opened Schemas
  import opened Models
  import opened StableSort
  import Seqs

  datatype Store = Store(rows: map<int, Transaction>, order: seq<int>)

  /** What a write produces: the store afterwards and the response. */
  datatype Step<T> = Step(store: Store, result: Result<T>)

  predicate Increasing(ids: seq<int>) {
    forall i, j :: 0 <= i < j < |ids| ==> ids[i] < ids[j]
  }

  /** The table's invariant: every row is listed once in insertion order, ids
      are positive and ascend in that order, each row carries its own id, and
      every row obeys the column bounds. */
  ghost predicate Valid(s: Store) {
    && Increasing(s.order)
    && (forall i :: 0 <= i < |s.order| ==> s.order[i] in s.rows)
    && (forall id :: id in s.rows ==>
          id in s.order && id >= 1 && s.rows[id].id == id && WellFormed(s.rows[id]))
  }

  function EmptyStore(): (s: Store)
    ensures Valid(s) && |s.rows| == 0
  {
    Store(map[], [])
  }

  /** The id the table hands out next: one past the largest live id, or 1 when
      the table is empty. Ids stay unique among live rows; the id of a deleted
      newest row can be handed out again. */
  function NextId(s: Store): (id: int)
    requires Valid(s)
    ensures id >= 1 && id !in s.rows
    ensures forall i :: 0 <= i < |s.order| ==> s.order[i] < id
  {
    if |s.order| == 0 then 1
    else
      var last := s.order[|s.order| - 1];
      assert forall i :: 0 <= i < |s.order| - 1 ==> s.order[i] < last;
      last + 1
  }

  // ── Create / Get / Update / Delete ────────────────────────────────────

  /** Validates the payload, then inserts a row with a fresh id whose date is
      the payload's date or else `today`. */
  function Create(s: Store, p: CreatePayload, today: Date): (r: Step<Transaction>)
    requires Valid(s) && ValidDate(today)
    ensures Valid(r.store)
    ensures r.result.Err? <==> !ValidCreate(p)
    ensures r.result.Err? ==> r.result.error == ValidationError && r.store == s
    ensures r.result.Ok? ==>
      var t := r.result.value;
      && t.id >= 1 && t.id !in s.rows
      && r.store.rows == s.rows[t.id := t]
      && r.store.order == s.order + [t.id]
      && t.amount == p.amount && t.category == p.category
      && Some(t.ty) == ParseType(p.ty)
      && t.date == (if p.date.Some? then p.date.value else today)
      && t.note == Some(if p.note.Some? then p.note.value else "")
      && Consistent(t)
  {
    if !ValidCreate(p) then Step(s, Err(ValidationError))
    else
      var id := NextId(s);
      var t := Construct(id, p.amount, p.category, ParseType(p.ty).value,
                         Some(p.date.GetOr(today)), p.note, today);
      assert WellFormed(t);
      AppendKeepsValid(s, t);
      Step(Store(s.rows[id := t], s.order + [id]), Ok(t))
  }

  /** Appending a well-formed row under an id above every live id keeps the
      invariant. */
  lemma AppendKeepsValid(s: Store, t: Transaction)
    requires Valid(s) && WellFormed(t) && t.id >= 1 && t.id !in s.rows
    requires forall i :: 0 <= i < |s.order| ==> s.order[i] < t.id
    ensures Valid(Store(s.rows[t.id := t], s.order + [t.id]))
  {
    var s' := Store(s.rows[t.id := t], s.order + [t.id]);
    assert forall i :: 0 <= i < |s'.order| ==> s'.order[i] in s'.rows;
  }

  function Get(s: Store, id: int): (r: Result<Transaction>)
    ensures r.Ok? <==> id in s.rows
    ensures r.Ok? ==> r.value == s.rows[id]
    ensures r.Err? ==> r.error == NotFound
  {
    if id in s.rows then Ok(s.rows[id]) else Err(NotFound)
  }

  /** Validates the payload, looks the row up, then assigns the supplied
      fields; a required column set to null makes the commit fail. */
  function Update(s: Store, id: int, p: UpdatePayload): (r: Step<Transaction>)
    requires Valid(s)
    ensures Valid(r.store)
    ensures r.result.Err? ==> r.store == s
    ensures r.result == Err(ValidationError) <==> !ValidUpdate(p)
    ensures r.result == Err(NotFound) <==> ValidUpdate(p) && id !in s.rows
    ensures r.result == Err(IntegrityError) <==>
              ValidUpdate(p) && id in s.rows && ClearsRequired(p)
    ensures r.result.Ok? ==>
      && id in s.rows
      && r.store.order == s.order
      && r.store.rows == s.rows[id := r.result.value]
      && Patched(s.rows[id], p, r.result.value)
  {
    if !ValidUpdate(p) then Step(s, Err(ValidationError))
    else if id !in s.rows then Step(s, Err(NotFound))
    else match ApplyPatch(s.rows[id], p)
      case None => Step(s, Err(IntegrityError))
      case Some(t) => Step(Store(s.rows[id := t], s.order), Ok(t))
  }

  /** `ids` without `id`. */
  function Remove(ids: seq<int>, id: int): (r: seq<int>)
    ensures forall x :: x in r <==> x in ids && x != id
    ensures Increasing(ids) ==> Increasing(r)
  {
    if |ids| == 0 then []
    else
      var rest := Remove(ids[1..], id);
      var r := if ids[0] == id then rest else [ids[0]] + rest;
      assert Increasing(ids) ==> Increasing(r) by {
        if Increasing(ids) {
          assert Increasing(ids[1..]) by {
            forall i, j | 0 <= i < j < |ids[1..]| ensures ids[1..][i] < ids[1..][j] {
              assert ids[1..][i] == ids[i + 1] && ids[1..][j] == ids[j + 1];
            }
          }
          forall i, j | 0 <= i < j < |r| ensures r[i] < r[j] {
            if r != rest && i == 0 {
              assert r[j] in rest;
            } else if r != rest {
              assert r[i] == rest[i - 1] && r[j] == rest[j - 1];
            }
          }
        }
      }
      r
  }

  function Delete(s: Store, id: int): (r: Step<()>)
    requires Valid(s)
    ensures Valid(r.store)
    ensures r.result.Err? <==> id !in s.rows
    ensures r.result.Err? ==> r.result.error == NotFound && r.store == s
    ensures r.result.Ok? ==> r.store.rows == s.rows - {id}
  {
    if id !in s.rows then Step(s, Err(NotFound))
    else
      var s' := Store(s.rows - {id}, Remove(s.order, id));
      assert forall i :: 0 <= i < |s'.order| ==> s'.order[i] in s'.rows by {
        forall i | 0 <= i < |s'.order| ensures s'.order[i] in s'.rows {
          assert s'.order[i] in s'.order;
          var k :| 0 <= k < |s.order| && s.order[k] == s'.order[i];
        }
      }
      Step(s', Ok(()))
  }

  lemma CreateThenGet(s: Store, p: CreatePayload, today: Date)
    requires Valid(s) && ValidDate(today) && ValidCreate(p)
    ensures var r := Create(s, p, today);
            r.result.Ok? && Get(r.store, r.result.value.id) == r.result
  {
  }

  lemma UpdateThenGet(s: Store, id: int, p: UpdatePayload)
    requires Valid(s)
    ensures var r := Update(s, id, p);
            r.result.Ok? ==> Get(r.store, id) == r.result
  {
  }

  /** After a delete, the id is gone whether or not it was there before. */
  lemma DeleteThenGet(s: Store, id: int)
    requires Valid(s)
    ensures Get(Delete(s, id).store, id) == Err(NotFound)
  {
  }

  /** A delete leaves every other row as it was. */
  lemma DeleteKeepsOthers(s: Store, id: int, other: int)
    requires Valid(s) && other != id
    ensures Get(Delete(s, id).store, other) == Get(s, other)
  {
  }

  // ── List ──────────────────────────────────────────────────────────────

  /** The optional query parameters of the list endpoint. */
  datatype ListFilter = ListFilter(
    category: Option<string>,
    ty: Option<string>,
    month: Option<int>,
    year: Option<int>)

  /** A text filter constrains only when given and non-empty. */
  predicate TextPasses(f: Option<string>, v: string) {
    f.None? || f.value == "" || f.value == v
  }

  /** A number filter constrains only when given and non-zero. */
  predicate NumberPasses(f: Option<int>, v: int) {
    f.None? || f.value == 0 || f.value == v
  }

  /** The row satisfies every filter that constrains. The type filter is
      compared with the stored spelling and is not itself validated. */
  predicate Matches(t: Transaction, f: ListFilter) {
    && TextPasses(f.category, t.category)
    && TextPasses(f.ty, TypeName(t.ty))
    && NumberPasses(f.month, t.month)
    && NumberPasses(f.year, t.year)
  }

  /** The month query parameter, when given, lies in 1..12. */
  predicate MonthParamOk(m: Option<int>) {
    m.None? || 1 <= m.value <= 12
  }

  /** The rows named by `ids` that exist, in the order of `ids`. */
  function RowsInOrder(rows: map<int, Transaction>, ids: seq<int>): (r: seq<Transaction>)
    ensures forall t :: t in r ==> exists i :: 0 <= i < |ids| && ids[i] in rows && rows[ids[i]] == t
    ensures forall i :: 0 <= i < |ids| && ids[i] in rows ==> rows[ids[i]] in r
    ensures (forall i :: 0 <= i < |ids| ==> ids[i] in rows) ==> |r| == |ids|
  {
    if |ids| == 0 then []
    else
      var rest := RowsInOrder(rows, ids[1..]);
      assert forall i :: 1 <= i < |ids| ==> ids[i] == ids[1..][i - 1];
      (if ids[0] in rows then [rows[ids[0]]] else []) + rest
  }

  /** Every row of the table, in insertion order: the order in which SQLite's
      table scan returns the rows of a query without `ORDER BY`. */
  function Records(s: Store): seq<Transaction> {
    RowsInOrder(s.rows, s.order)
  }

  /** The rows of `txs` that satisfy `f`, in their order in `txs`. */
  function Select(txs: seq<Transaction>, f: ListFilter): (r: seq<Transaction>)
    ensures forall t :: t in r <==> t in txs && Matches(t, f)
    ensures |r| <= |txs|
  {
    if |txs| == 0 then []
    else
      assert forall t :: t in txs <==> t == txs[0] || t in txs[1..];
      (if Matches(txs[0], f) then [txs[0]] else []) + Select(txs[1..], f)
  }

  /** Ids strictly ascend along `txs`; in particular no row appears twice. */
  predicate IdsAscending(txs: seq<Transaction>) {
    forall i, j :: 0 <= i < j < |txs| ==> txs[i].id < txs[j].id
  }

  /** The ids of the rows of `txs`, in order. */
  function IdsOf(txs: seq<Transaction>): (r: seq<int>)
    ensures |r| == |txs| && forall i :: 0 <= i < |txs| ==> r[i] == txs[i].id
  {
    seq(|txs|, i requires 0 <= i < |txs| => txs[i].id)
  }

  /** Rows with ascending ids carry as many distinct ids as there are rows. */
  lemma AscendingCount(txs: seq<Transaction>)
    requires IdsAscending(txs)
    ensures |set x | x in IdsOf(txs)| == |txs|
  {
    Seqs.DistinctCardinality(IdsOf(txs));
  }

  lemma {:induction false} RowsInOrderAt(rows: map<int, Transaction>, ids: seq<int>)
    requires forall i :: 0 <= i < |ids| ==> ids[i] in rows
    ensures |RowsInOrder(rows, ids)| == |ids|
    ensures forall i :: 0 <= i < |ids| ==> RowsInOrder(rows, ids)[i] == rows[ids[i]]
  {
    if |ids| > 0 {
      RowsInOrderAt(rows, ids[1..]);
      assert RowsInOrder(rows, ids) == [rows[ids[0]]] + RowsInOrder(rows, ids[1..]);
    }
  }

  /** Reading the table in insertion order meets the ids in ascending order. */
  lemma RecordsAscending(s: Store)
    requires Valid(s)
    ensures IdsAscending(Records(s))
  {
    RowsInOrderAt(s.rows, s.order);
  }

  /** Filtering keeps the ids ascending. */
  lemma {:induction false} SelectKeepsAscending(txs: seq<Transaction>, f: ListFilter)
    requires IdsAscending(txs)
    ensures IdsAscending(Select(txs, f))
  {
    if |txs| > 0 {
      var tail := txs[1..];
      assert IdsAscending(tail) by {
        forall i, j | 0 <= i < j < |tail| ensures tail[i].id < tail[j].id {
          assert tail[i] == txs[i + 1] && tail[j] == txs[j + 1];
        }
      }
      SelectKeepsAscending(tail, f);
      var rest := Select(tail, f);
      if Matches(txs[0], f) {
        var r := [txs[0]] + rest;
        forall i, j | 0 <= i < j < |r| ensures r[i].id < r[j].id {
          if i == 0 {
            assert r[j] in tail;
            var k :| 0 <= k < |tail| && tail[k] == r[j];
            assert tail[k] == txs[k + 1];
          } else {
            assert r[i] == rest[i - 1] && r[j] == rest[j - 1];
          }
        }
      }
    }
  }

  /** Under the invariant, the rows a filter selects from the table are each
      stored row that passes it, each exactly once, in ascending id order. */
  lemma SelectedRows(s: Store, f: ListFilter)
    ensures Valid(s) ==> IdsAscending(Select(Records(s), f))
    ensures Valid(s) ==> forall t: Transaction :: t in Select(Records(s), f) <==>
                           t.id in s.rows && s.rows[t.id] == t && Matches(t, f)
  {
    if Valid(s) {
      RecordsAscending(s);
      SelectKeepsAscending(Records(s), f);
      RecordsAreRows(s);
    }
  }

  /** The sort key of a row: its date as a day number. */
  function DateKey(t: Transaction): real {
    Ordinal(t.date) as real
  }

  /** The rows satisfying every constraining filter, newest date first. */
  function List(s: Store, f: ListFilter): (r: Result<seq<Transaction>>)
    ensures r.Err? <==> !MonthParamOk(f.month)
    ensures r.Err? ==> r.error == ValidationError
    ensures r.Ok? ==> multiset(r.value) == multiset(Select(Records(s), f))
    ensures r.Ok? ==> SortedDesc(r.value, DateKey)
  {
    if !MonthParamOk(f.month) then Err(ValidationError)
    else
      var matched := Select(Records(s), f);
      SortDescSorted(matched, DateKey);
      SortDescPermutes(matched, DateKey);
      Ok(SortDesc(matched, DateKey))
  }

  /** Under the invariant, a record is listed by `Records` exactly when it is
      the row stored under its own id. */
  lemma RecordsAreRows(s: Store)
    requires Valid(s)
    ensures forall t: Transaction :: t in Records(s) <==> t.id in s.rows && s.rows[t.id] == t
  {
    forall t: Transaction | t.id in s.rows && s.rows[t.id] == t ensures t in Records(s) {
      var i :| 0 <= i < |s.order| && s.order[i] == t.id;
    }
  }

  /** A listed row is a stored row that satisfies every constraining filter,
      and every such row is listed. */
  lemma ListReturnsExactlyMatches(s: Store, f: ListFilter)
    requires Valid(s) && MonthParamOk(f.month)
    ensures forall t: Transaction :: t in List(s, f).value <==>
              t.id in s.rows && s.rows[t.id] == t && Matches(t, f)
  {
    RecordsAreRows(s);
    var r := List(s, f).value;
    forall t ensures t in r <==> t in Select(Records(s), f) {
      assert t in r <==> t in multiset(r);
    }
  }

  /** The listed rows come newest date first. */
  lemma ListNewestFirst(s: Store, f: ListFilter)
    requires Valid(s) && MonthParamOk(f.month)
    ensures var r := List(s, f).value;
            forall i, j :: 0 <= i < j < |r| ==> !Before(r[i].date, r[j].date)
  {
    var r := List(s, f).value;
    ListReturnsExactlyMatches(s, f);
    forall i, j | 0 <= i < j < |r| ensures !Before(r[i].date, r[j].date) {
      assert r[i] in r && r[j] in r;
      assert WellFormed(r[i]) && WellFormed(r[j]);
      OrdinalOrder(r[i].date, r[j].date);
    }
  }

  /** The filter with its blank values (empty text, year 0) dropped. A month
      of 0 is refused by validation rather than ignored, so it stays. */
  function DropBlank(f: ListFilter): (g: ListFilter)
    ensures g.category.Some? ==> g.category.value != ""
    ensures g.ty.Some? ==> g.ty.value != ""
    ensures g.year.Some? ==> g.year.value != 0
    ensures f.category != Some("") ==> g.category == f.category
    ensures f.ty != Some("") ==> g.ty == f.ty
    ensures f.year != Some(0) ==> g.year == f.year
    ensures g.month == f.month
  {
    ListFilter(
      if f.category == Some("") then None else f.category,
      if f.ty == Some("") then None else f.ty,
      f.month,
      if f.year == Some(0) then None else f.year)
  }

  lemma {:induction false} SelectSameMatches(txs: seq<Transaction>, f: ListFilter, g: ListFilter)
    requires forall t :: Matches(t, f) == Matches(t, g)
    ensures Select(txs, f) == Select(txs, g)
  {
    if |txs| > 0 {
      SelectSameMatches(txs[1..], f, g);
    }
  }

  /** A blank filter value lists the same rows as leaving the filter out. */
  lemma ListIgnoresBlankFilters(s: Store, f: ListFilter)
    ensures List(s, f) == List(s, DropBlank(f))
  {
    SelectSameMatches(Records(s), f, DropBlank(f));
  }

  /** With no filters, every stored row is listed, each once. */
  lemma UnfilteredListHasEveryRow(s: Store)
    requires Valid(s)
    ensures forall id :: id in s.rows ==> s.rows[id] in List(s, ListFilter(None, None, None, None)).value
    ensures |List(s, ListFilter(None, None, None, None)).value| == |s.rows|
  {
    var f := ListFilter(None, None, None, None);
    ListReturnsExactlyMatches(s, f);
    SelectAll(Records(s), f);
    OrderCoversRows(s);
  }

  lemma {:induction false} SelectAll(txs: seq<Transaction>, f: ListFilter)
    requires forall t :: Matches(t, f)
    ensures Select(txs, f) == txs
  {
    if |txs| > 0 {
      SelectAll(txs[1..], f);
      assert txs == [txs[0]] + txs[1..];
    }
  }

  /** Insertion order lists each row exactly once. */
  lemma OrderCoversRows(s: Store)
    requires Valid(s)
    ensures |Records(s)| == |s.order| == |s.rows|
  {
    assert Seqs.Distinct(s.order);
    Seqs.DistinctCardinality(s.order);
    assert (set x | x in s.order) == s.rows.Keys by {
      forall x | x in s.order ensures x in s.rows {
        var i :| 0 <= i < |s.order| && s.order[i] == x;
      }
      forall x | x in s.rows ensures x in (set y | y in s.order) {
        assert x in s.order;
      }
    }
  }

  /** Moving a row's date into another month through an update leaves it
      listed under its old month and missing from the new one, because the
      month column is not re-derived. */
  lemma MovedRowListedUnderOldMonth(s: Store, id: int, d: Date)
    requires Valid(s) && id in s.rows && Consistent(s.rows[id])
    requires ValidDate(d) && d.month != s.rows[id].date.month
    ensures var r := Update(s, id, UpdatePayload(Unset, Unset, Unset, Given(d), Unset));
            var t := r.result.value;
            var oldMonth := s.rows[id].date.month;
            && r.result.Ok?
            && t.date == d
            && t in List(r.store, ListFilter(None, None, Some(oldMonth), None)).value
            && t !in List(r.store, ListFilter(None, None, Some(d.month), None)).value
  {
    var r := Update(s, id, UpdatePayload(Unset, Unset, Unset, Given(d), Unset));
    var t := r.result.value;
    assert r.result.Ok? && r.store.rows[id] == t;
    assert t.id == id && t.month == s.rows[id].month && t.month != d.month;
    assert Matches(t, ListFilter(None, None, Some(s.rows[id].date.month), None));
    assert !Matches(t, ListFilter(None, None, Some(d.month), None));
    ListReturnsExactlyMatches(r.store, ListFilter(None, None, Some(s.rows[id].date.month), None));
    ListReturnsExactlyMatches(r.store, ListFilter(None, None, Some(d.month), None));
  }
}
