/** The summary query: income and expense totals, the balance, the number of
    matched rows, and the expense breakdown by category, largest first. */
module Summaries {
  import opened Outcomes
  import opened Schemas
  import opened Models
  import opened StableSort
  import opened Seqs
  import opened TransactionStore

  function TotalOf(e: CategorySummary): real {
    e.total
  }

  // ── Reference definitions ─────────────────────────────────────────────

  /** Sum of the amounts of the rows of type `ty`. */
  function SumOfType(txs: seq<Transaction>, ty: TxType): real {
    if |txs| == 0 then 0.0
    else
      var t := txs[|txs| - 1];
      SumOfType(txs[..|txs| - 1], ty) + (if t.ty == ty then t.amount else 0.0)
  }

  /** Sum of the expense amounts recorded under category `c`. */
  function CategoryExpense(txs: seq<Transaction>, c: string): real {
    if |txs| == 0 then 0.0
    else
      var t := txs[|txs| - 1];
      CategoryExpense(txs[..|txs| - 1], c)
        + (if t.ty == Expense && t.category == c then t.amount else 0.0)
  }

  /** Some expense row is recorded under category `c`. */
  predicate IsExpenseCategory(txs: seq<Transaction>, c: string) {
    exists i :: 0 <= i < |txs| && txs[i].ty == Expense && txs[i].category == c
  }

  /** The expense categories in the order their first row appears. */
  function FirstSeen(txs: seq<Transaction>): seq<string> {
    if |txs| == 0 then []
    else
      var seen := FirstSeen(txs[..|txs| - 1]);
      var t := txs[|txs| - 1];
      if t.ty == Expense && t.category !in seen then seen + [t.category] else seen
  }

  /** The expense rows of `txs`, in order. */
  function Expenses(txs: seq<Transaction>): (r: seq<Transaction>)
    ensures forall t :: t in r ==> t.ty == Expense
  {
    if |txs| == 0 then []
    else
      var t := txs[|txs| - 1];
      Expenses(txs[..|txs| - 1]) + (if t.ty == Expense then [t] else [])
  }

  // ── The category map ──────────────────────────────────────────────────

  function CategoriesOf(m: seq<CategorySummary>): (r: seq<string>)
    ensures |r| == |m|
  {
    if |m| == 0 then [] else [m[0].category] + CategoriesOf(m[1..])
  }

  lemma {:induction false} CategoryAt(m: seq<CategorySummary>, i: int)
    requires 0 <= i < |m|
    ensures CategoriesOf(m)[i] == m[i].category
  {
    if i > 0 {
      CategoryAt(m[1..], i - 1);
    }
  }

  /** The set of categories a breakdown names. */
  function CategorySet(m: seq<CategorySummary>): set<string> {
    set e | e in m :: e.category
  }

  /** No category has two entries. */
  predicate UniqueCategories(m: seq<CategorySummary>) {
    forall i, j :: 0 <= i < j < |m| ==> m[i].category != m[j].category
  }

  /** `category_map.get(c, 0)`: the total of the first entry for `c`. */
  function Lookup(m: seq<CategorySummary>, c: string): real {
    if |m| == 0 then 0.0
    else if m[0].category == c then m[0].total
    else Lookup(m[1..], c)
  }

  function SumTotals(m: seq<CategorySummary>): real {
    if |m| == 0 then 0.0 else m[0].total + SumTotals(m[1..])
  }

  /** `category_map[c] = category_map.get(c, 0) + a` on an insertion-ordered
      map: a known category keeps its place, a new one goes last. */
  function AddAmount(m: seq<CategorySummary>, c: string, a: real): (r: seq<CategorySummary>)
    ensures CategoriesOf(r) == if c in CategoriesOf(m) then CategoriesOf(m) else CategoriesOf(m) + [c]
    ensures SumTotals(r) == SumTotals(m) + a
    ensures forall d :: Lookup(r, d) == Lookup(m, d) + (if d == c then a else 0.0)
  {
    if |m| == 0 then [CategorySummary(c, 0.0 + a)]
    else if m[0].category == c then
      assert c in CategoriesOf(m) by { assert CategoriesOf(m)[0] == c; }
      [CategorySummary(c, m[0].total + a)] + m[1..]
    else
      var rest := AddAmount(m[1..], c, a);
      assert CategoriesOf(m) == [m[0].category] + CategoriesOf(m[1..]);
      assert c in CategoriesOf(m) <==> c in CategoriesOf(m[1..]);
      [m[0]] + rest
  }

  /** The loop over the matched rows that adds every expense to its category. */
  function Accumulate(txs: seq<Transaction>): (r: seq<CategorySummary>)
    ensures CategoriesOf(r) == FirstSeen(txs)
    ensures SumTotals(r) == SumOfType(txs, Expense)
  {
    if |txs| == 0 then []
    else
      var m := Accumulate(txs[..|txs| - 1]);
      var t := txs[|txs| - 1];
      if t.ty == Expense then AddAmount(m, t.category, t.amount) else m
  }

  /** The category map's entries sorted by total, largest first; entries with
      equal totals keep their first-seen order. */
  function Breakdown(txs: seq<Transaction>): (r: seq<CategorySummary>)
    ensures SortedDesc(r, TotalOf)
    ensures multiset(r) == multiset(Accumulate(txs))
  {
    SortDescSorted(Accumulate(txs), TotalOf);
    SortDescPermutes(Accumulate(txs), TotalOf);
    SortDesc(Accumulate(txs), TotalOf)
  }

  // ── The summary handler ───────────────────────────────────────────────

  /** The rows the summary covers: month and year filters only, in insertion order. */
  function Matched(s: Store, month: Option<int>, year: Option<int>): (r: seq<Transaction>)
    ensures Valid(s) ==> IdsAscending(r)
    ensures Valid(s) ==> forall t: Transaction :: t in r <==>
              t.id in s.rows && s.rows[t.id] == t && Matches(t, ListFilter(None, None, month, year))
  {
    SelectedRows(s, ListFilter(None, None, month, year));
    Select(Records(s), ListFilter(None, None, month, year))
  }

  function GetSummary(s: Store, month: Option<int>, year: Option<int>): (r: Result<SummaryResponse>)
    ensures r.Err? <==> !MonthParamOk(month)
    ensures r.Err? ==> r.error == ValidationError
    ensures r.Ok? ==> r.value.balance == r.value.totalIncome - r.value.totalExpenses
  {
    if !MonthParamOk(month) then Err(ValidationError)
    else
      var txs := Matched(s, month, year);
      var income := SumOfType(txs, Income);
      var expenses := SumOfType(txs, Expense);
      Ok(SummaryResponse(income, expenses, income - expenses, |txs|, Breakdown(txs)))
  }

  // ── The category map against the reference definitions ────────────────

  lemma IsExpenseCategoryLast(txs: seq<Transaction>, c: string)
    requires |txs| > 0
    ensures var p, t := txs[..|txs| - 1], txs[|txs| - 1];
            IsExpenseCategory(txs, c) <==>
              IsExpenseCategory(p, c) || (t.ty == Expense && t.category == c)
  {
    var p := txs[..|txs| - 1];
    if IsExpenseCategory(p, c) {
      var i :| 0 <= i < |p| && p[i].ty == Expense && p[i].category == c;
      assert txs[i] == p[i];
    }
    if IsExpenseCategory(txs, c) {
      var i :| 0 <= i < |txs| && txs[i].ty == Expense && txs[i].category == c;
      if i < |p| {
        assert p[i] == txs[i];
      }
    }
  }

  /** The first-seen list names every expense category once and nothing else. */
  lemma {:induction false} FirstSeenSpec(txs: seq<Transaction>)
    ensures Distinct(FirstSeen(txs))
    ensures forall c :: c in FirstSeen(txs) <==> IsExpenseCategory(txs, c)
  {
    if |txs| > 0 {
      var p, t := txs[..|txs| - 1], txs[|txs| - 1];
      FirstSeenSpec(p);
      forall c ensures IsExpenseCategory(txs, c) <==>
                       IsExpenseCategory(p, c) || (t.ty == Expense && t.category == c) {
        IsExpenseCategoryLast(txs, c);
      }
    }
  }

  /** Looking a category up in the category map gives its expense total. */
  lemma {:induction false} AccumulateMatchesReference(txs: seq<Transaction>)
    ensures forall c :: Lookup(Accumulate(txs), c) == CategoryExpense(txs, c)
  {
    if |txs| > 0 {
      AccumulateMatchesReference(txs[..|txs| - 1]);
    }
  }

  /** In a map without repeated categories, an entry's total is what lookup
      returns for its category. */
  lemma {:induction false} LookupFindsEntry(m: seq<CategorySummary>, e: CategorySummary)
    requires Distinct(CategoriesOf(m)) && e in m
    ensures Lookup(m, e.category) == e.total
  {
    if m[0] != e {
      var rest := m[1..];
      assert e in rest;
      var k :| 0 <= k < |rest| && rest[k] == e;
      CategoryAt(m, 0);
      CategoryAt(m, k + 1);
      assert CategoriesOf(m)[0] != CategoriesOf(m)[k + 1];
      assert CategoriesOf(rest) == CategoriesOf(m)[1..];
      assert Distinct(CategoriesOf(rest)) by {
        forall i, j | 0 <= i < j < |rest|
          ensures CategoriesOf(rest)[i] != CategoriesOf(rest)[j]
        {
          assert CategoriesOf(m)[i + 1] != CategoriesOf(m)[j + 1];
        }
      }
      LookupFindsEntry(rest, e);
    }
  }

  lemma CategoriesCons(e: CategorySummary, m: seq<CategorySummary>)
    ensures CategoriesOf([e] + m) == [e.category] + CategoriesOf(m)
    ensures SumTotals([e] + m) == e.total + SumTotals(m)
  {
    assert ([e] + m)[0] == e && ([e] + m)[1..] == m;
  }

  lemma {:induction false} InsertKeepsSum(x: CategorySummary, xs: seq<CategorySummary>)
    ensures SumTotals(InsertDesc(x, xs, TotalOf)) == SumTotals(xs) + x.total
  {
    if |xs| == 0 {
      CategoriesCons(x, []);
      assert [x] + [] == [x];
    } else if TotalOf(xs[0]) <= TotalOf(x) {
      CategoriesCons(x, xs);
    } else {
      var rest := InsertDesc(x, xs[1..], TotalOf);
      assert InsertDesc(x, xs, TotalOf) == [xs[0]] + rest;
      InsertKeepsSum(x, xs[1..]);
      CategoriesCons(xs[0], rest);
      CategoriesCons(xs[0], xs[1..]);
      assert [xs[0]] + xs[1..] == xs;
    }
  }

  lemma {:induction false} SortKeepsSum(xs: seq<CategorySummary>)
    ensures SumTotals(SortDesc(xs, TotalOf)) == SumTotals(xs)
  {
    if |xs| > 0 {
      var sorted := SortDesc(xs[1..], TotalOf);
      assert SortDesc(xs, TotalOf) == InsertDesc(xs[0], sorted, TotalOf);
      SortKeepsSum(xs[1..]);
      InsertKeepsSum(xs[0], sorted);
      CategoriesCons(xs[0], xs[1..]);
      assert [xs[0]] + xs[1..] == xs;
    }
  }

  // ── Properties of the breakdown ───────────────────────────────────────

  /** Totals never increase along the breakdown, and categories with equal
      totals appear in the order their first expense appears. */
  lemma BreakdownOrder(txs: seq<Transaction>)
    ensures SortedDesc(Breakdown(txs), TotalOf)
    ensures CategoriesOf(Accumulate(txs)) == FirstSeen(txs)
    ensures forall k :: Keep(Breakdown(txs), TotalOf, k) == Keep(Accumulate(txs), TotalOf, k)
  {
    SortDescSorted(Accumulate(txs), TotalOf);
    SortDescStable(Accumulate(txs), TotalOf);
    AccumulateMatchesReference(txs);
  }

  lemma CategoriesOfNamesTheSet(m: seq<CategorySummary>)
    ensures forall c :: c in CategoriesOf(m) <==> c in CategorySet(m)
    ensures Distinct(CategoriesOf(m)) ==> UniqueCategories(m)
  {
    forall c | c in CategoriesOf(m) ensures c in CategorySet(m) {
      var i :| 0 <= i < |m| && CategoriesOf(m)[i] == c;
      CategoryAt(m, i);
    }
    forall c | c in CategorySet(m) ensures c in CategoriesOf(m) {
      var e :| e in m && e.category == c;
      var i :| 0 <= i < |m| && m[i] == e;
      CategoryAt(m, i);
    }
    if Distinct(CategoriesOf(m)) {
      forall i, j | 0 <= i < j < |m| ensures m[i].category != m[j].category {
        CategoryAt(m, i);
        CategoryAt(m, j);
      }
    }
  }

  /** Rearranging entries keeps each category to a single entry. */
  lemma UniqueCategoriesPermutation(m: seq<CategorySummary>, r: seq<CategorySummary>)
    requires multiset(m) == multiset(r) && UniqueCategories(m)
    ensures UniqueCategories(r)
  {
    DistinctPermutation(m, r);
    forall i, j | 0 <= i < j < |r| ensures r[i].category != r[j].category {
      assert r[i] in multiset(m) && r[j] in multiset(m);
      var a :| 0 <= a < |m| && m[a] == r[i];
      var b :| 0 <= b < |m| && m[b] == r[j];
      assert a != b;
    }
  }

  /** The breakdown gives each expense category of the rows one entry and
      names no other category. */
  lemma BreakdownCategories(txs: seq<Transaction>)
    ensures UniqueCategories(Breakdown(txs))
    ensures forall c :: c in CategorySet(Breakdown(txs)) <==> IsExpenseCategory(txs, c)
  {
    var m := Accumulate(txs);
    AccumulateMatchesReference(txs);
    FirstSeenSpec(txs);
    CategoriesOfNamesTheSet(m);
    SortDescPermutes(m, TotalOf);
    UniqueCategoriesPermutation(m, Breakdown(txs));
    assert CategorySet(Breakdown(txs)) == CategorySet(m) by {
      forall e ensures e in Breakdown(txs) <==> e in m {
        assert e in Breakdown(txs) <==> e in multiset(Breakdown(txs));
      }
    }
  }

  /** Each breakdown row carries the sum of its category's expense amounts. */
  lemma BreakdownTotals(txs: seq<Transaction>)
    ensures forall e :: e in Breakdown(txs) ==> e.total == CategoryExpense(txs, e.category)
  {
    var m := Accumulate(txs);
    AccumulateMatchesReference(txs);
    FirstSeenSpec(txs);
    SortDescPermutes(m, TotalOf);
    forall e | e in Breakdown(txs) ensures e.total == CategoryExpense(txs, e.category) {
      assert e in multiset(Breakdown(txs));
      assert e in m;
      LookupFindsEntry(m, e);
    }
  }

  /** The breakdown's totals add up to the total of all expenses. */
  lemma BreakdownSumsToExpenses(txs: seq<Transaction>)
    ensures SumTotals(Breakdown(txs)) == SumOfType(txs, Expense)
  {
    AccumulateMatchesReference(txs);
    SortKeepsSum(Accumulate(txs));
  }

  lemma {:induction false} AccumulateIgnoresIncome(txs: seq<Transaction>)
    ensures Accumulate(txs) == Accumulate(Expenses(txs))
  {
    if |txs| > 0 {
      var p, t := txs[..|txs| - 1], txs[|txs| - 1];
      AccumulateIgnoresIncome(p);
      var e, ep := Expenses(txs), Expenses(p);
      if t.ty == Expense {
        assert e == ep + [t];
        assert e[..|e| - 1] == ep && e[|e| - 1] == t;
        calc {
          Accumulate(e);
          AddAmount(Accumulate(ep), t.category, t.amount);
          AddAmount(Accumulate(p), t.category, t.amount);
          Accumulate(txs);
        }
      } else {
        assert e == ep;
        assert Accumulate(txs) == Accumulate(p);
      }
    }
  }

  /** Income rows never reach the breakdown: it is the same with them removed. */
  lemma BreakdownIgnoresIncome(txs: seq<Transaction>)
    ensures Breakdown(txs) == Breakdown(Expenses(txs))
  {
    AccumulateIgnoresIncome(txs);
  }

  // ── Properties of the summary ─────────────────────────────────────────

  /** The summary's totals are the income and expense sums of the rows the
      month and year filters match, its count is their number, and its
      breakdown is sorted, complete and adds up to the expense total. */
  lemma SummaryContents(s: Store, month: Option<int>, year: Option<int>)
    requires MonthParamOk(month)
    ensures var r := GetSummary(s, month, year).value;
            var txs := Matched(s, month, year);
            && r.totalIncome == SumOfType(txs, Income)
            && r.totalExpenses == SumOfType(txs, Expense)
            && r.transactionCount == |txs|
            && SortedDesc(r.categories, TotalOf)
            && UniqueCategories(r.categories)
            && (forall c :: c in CategorySet(r.categories) <==> IsExpenseCategory(txs, c))
            && (forall e :: e in r.categories ==> e.total == CategoryExpense(txs, e.category))
            && SumTotals(r.categories) == r.totalExpenses
  {
    var txs := Matched(s, month, year);
    BreakdownOrder(txs);
    BreakdownCategories(txs);
    BreakdownTotals(txs);
    BreakdownSumsToExpenses(txs);
  }

  /** The summary counts exactly the rows the list endpoint returns for the
      same month and year. */
  lemma SummaryCountMatchesList(s: Store, month: Option<int>, year: Option<int>)
    requires MonthParamOk(month)
    ensures GetSummary(s, month, year).value.transactionCount
         == |List(s, ListFilter(None, None, month, year)).value|
  {
    var l := List(s, ListFilter(None, None, month, year)).value;
    assert |l| == |multiset(l)|;
  }

  /** Without filters the summary counts every stored row. */
  lemma UnfilteredSummaryCountsAll(s: Store)
    requires Valid(s)
    ensures GetSummary(s, None, None).value.transactionCount == |s.rows|
  {
    SummaryCountMatchesList(s, None, None);
    UnfilteredListHasEveryRow(s);
  }

  /** The count is the number of stored rows the month and year filters match. */
  lemma SummaryCountsStoredMatches(s: Store, month: Option<int>, year: Option<int>)
    requires Valid(s) && MonthParamOk(month)
    ensures GetSummary(s, month, year).value.transactionCount
         == |set id | id in s.rows && Matches(s.rows[id], ListFilter(None, None, month, year))|
  {
    var txs := Matched(s, month, year);
    assert GetSummary(s, month, year).value.transactionCount == |txs|;
    MatchedIds(s, month, year);
    AscendingCount(txs);
  }

  /** The ids of the matched rows are the ids of the stored rows that match. */
  lemma MatchedIds(s: Store, month: Option<int>, year: Option<int>)
    requires Valid(s)
    ensures (set x | x in IdsOf(Matched(s, month, year)))
         == (set id | id in s.rows && Matches(s.rows[id], ListFilter(None, None, month, year)))
  {
    var f := ListFilter(None, None, month, year);
    var txs := Matched(s, month, year);
    var ids := IdsOf(txs);
    forall x | x in ids ensures x in s.rows && Matches(s.rows[x], f) {
      var i :| 0 <= i < |ids| && ids[i] == x;
      assert txs[i] in txs;
    }
    forall x | x in s.rows && Matches(s.rows[x], f) ensures x in ids {
      var t := s.rows[x];
      assert t in txs;
      var i :| 0 <= i < |txs| && txs[i] == t;
      assert ids[i] == x;
    }
  }

  /** With nothing matched, every total is zero and the breakdown is empty. */
  lemma EmptySummary(s: Store, month: Option<int>, year: Option<int>)
    requires MonthParamOk(month) && |Matched(s, month, year)| == 0
    ensures GetSummary(s, month, year) == Ok(SummaryResponse(0.0, 0.0, 0.0, 0, []))
  {
  }
}
