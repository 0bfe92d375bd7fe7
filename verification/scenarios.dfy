/** Worked examples of the store and the summary on concrete rows. */
module Scenarios {
  import opened Outcomes
  import opened Dates
  import opened Schemas
  import opened Models
  import opened TransactionStore
  import opened Summaries
  import opened StableSort

  function Row(id: int, amount: real, category: string, ty: TxType): Transaction {
    Transaction(id, amount, category, ty, Date(2025, 3, 1), Some(""), 3, 2025)
  }

  /** Expenses Food 30, Rent 100, Food 20 give the breakdown Rent 100, Food 50. */
  lemma BreakdownExample()
    ensures Breakdown([Row(1, 30.0, "Food", Expense), Row(2, 100.0, "Rent", Expense),
                       Row(3, 20.0, "Food", Expense)])
         == [CategorySummary("Rent", 100.0), CategorySummary("Food", 50.0)]
  {
    var m := [CategorySummary("Food", 50.0), CategorySummary("Rent", 100.0)];
    FoodRentFoodMap();
    assert SortDesc(m[1..], TotalOf) == [m[1]];
    assert InsertDesc(m[0], [m[1]], TotalOf) == [m[1]] + InsertDesc(m[0], [], TotalOf);
  }

  /** The category map of Food 30, Rent 100, Food 20, in first-seen order. */
  lemma FoodRentFoodMap()
    ensures Accumulate([Row(1, 30.0, "Food", Expense), Row(2, 100.0, "Rent", Expense),
                        Row(3, 20.0, "Food", Expense)])
         == [CategorySummary("Food", 50.0), CategorySummary("Rent", 100.0)]
  {
    var a, b, c := Row(1, 30.0, "Food", Expense), Row(2, 100.0, "Rent", Expense),
                   Row(3, 20.0, "Food", Expense);
    assert "Food"[0] != "Rent"[0];
    assert [a, b, c][..2] == [a, b] && [a, b][..1] == [a] && [a][..0] == [];
    var m1 := [CategorySummary("Food", 30.0)];
    assert Accumulate([a]) == AddAmount([], "Food", 30.0) == m1;
    var m2 := m1 + [CategorySummary("Rent", 100.0)];
    assert AddAmount(m1[1..], "Rent", 100.0) == [CategorySummary("Rent", 100.0)];
    assert Accumulate([a, b]) == AddAmount(m1, "Rent", 100.0) == m2;
    assert Accumulate([a, b, c]) == AddAmount(m2, "Food", 20.0);
  }

  /** Two categories with equal totals keep the order of their first expense. */
  lemma TieKeepsFirstSeenOrder()
    ensures Breakdown([Row(1, 10.0, "Rent", Expense), Row(2, 5.0, "Food", Expense),
                       Row(3, 999.0, "Salary", Income), Row(4, 5.0, "Food", Expense)])
         == [CategorySummary("Rent", 10.0), CategorySummary("Food", 10.0)]
  {
    var m := [CategorySummary("Rent", 10.0), CategorySummary("Food", 10.0)];
    RentFoodSalaryFoodMap();
    assert SortDesc(m[1..], TotalOf) == [m[1]];
    assert InsertDesc(m[0], [m[1]], TotalOf) == [m[0], m[1]];
  }

  /** The category map of Rent 10, Food 5, an income row, Food 5. */
  lemma RentFoodSalaryFoodMap()
    ensures Accumulate([Row(1, 10.0, "Rent", Expense), Row(2, 5.0, "Food", Expense),
                        Row(3, 999.0, "Salary", Income), Row(4, 5.0, "Food", Expense)])
         == [CategorySummary("Rent", 10.0), CategorySummary("Food", 10.0)]
  {
    var a, b, c, d := Row(1, 10.0, "Rent", Expense), Row(2, 5.0, "Food", Expense),
                      Row(3, 999.0, "Salary", Income), Row(4, 5.0, "Food", Expense);
    var m2 := [CategorySummary("Rent", 10.0), CategorySummary("Food", 5.0)];
    RentFoodMap();
    assert [a, b, c, d][..3] == [a, b, c] && [a, b, c][..2] == [a, b];
    assert Accumulate([a, b, c]) == m2;
    assert "Food"[0] != "Rent"[0];
    assert AddAmount(m2[1..], "Food", 5.0) == [CategorySummary("Food", 10.0)];
    assert Accumulate([a, b, c, d]) == AddAmount(m2, "Food", 5.0);
  }

  /** The category map of Rent 10, Food 5. */
  lemma RentFoodMap()
    ensures Accumulate([Row(1, 10.0, "Rent", Expense), Row(2, 5.0, "Food", Expense)])
         == [CategorySummary("Rent", 10.0), CategorySummary("Food", 5.0)]
  {
    var a, b := Row(1, 10.0, "Rent", Expense), Row(2, 5.0, "Food", Expense);
    assert "Food"[0] != "Rent"[0];
    assert [a, b][..1] == [a] && [a][..0] == [];
    var m1 := [CategorySummary("Rent", 10.0)];
    assert Accumulate([a]) == AddAmount([], "Rent", 10.0) == m1;
    assert AddAmount(m1[1..], "Food", 5.0) == [CategorySummary("Food", 5.0)];
    assert Accumulate([a, b]) == AddAmount(m1, "Food", 5.0);
  }

  /** Creating one expense in an empty store gives it id 1 and the month and
      year of its date, and the year's summary shows it as the only expense. */
  lemma CreateThenSummarize(today: Date)
    requires ValidDate(today)
    ensures var p := CreatePayload(45.90, "Groceries", "expense", Some(Date(2025, 3, 15)), None);
            var r := Create(EmptyStore(), p, today);
            var t := r.result.value;
            && r.result.Ok?
            && t.id == 1 && t.month == 3 && t.year == 2025
            && GetSummary(r.store, None, Some(2025))
               == Ok(SummaryResponse(0.0, 45.90, -45.90, 1, [CategorySummary("Groceries", 45.90)]))
  {
    var p := CreatePayload(45.90, "Groceries", "expense", Some(Date(2025, 3, 15)), None);
    var r := Create(EmptyStore(), p, today);
    var t := r.result.value;
    assert r.store == Store(map[1 := t], [1]);
    assert Records(r.store) == [t];
    var txs := Matched(r.store, None, Some(2025));
    assert txs == [t];
    assert txs[..0] == [];
    assert t.id == 1 && t.month == 3 && t.year == 2025;
    assert t.ty == Expense && t.amount == 45.90;
    assert SumOfType(txs, Expense) == SumOfType(txs[..0], Expense) + t.amount;
    assert SumOfType(txs, Income) == SumOfType(txs[..0], Income) + 0.0;
    assert SumOfType(txs, Income) == 0.0 && SumOfType(txs, Expense) == 45.90;
    assert Accumulate(txs) == [CategorySummary("Groceries", 45.90)];
    assert Breakdown(txs) == [CategorySummary("Groceries", 45.90)];
  }
}
