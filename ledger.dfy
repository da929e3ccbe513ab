/** The page's ledger: the `transactions` list and the operations that read or change it. */
module ExpenseLedger {
  import opened Seqs
  import opened Text
  import opened Transactions
  import opened Filters
  import opened Totals
  import opened Csv

  class Ledger {
    /** The records, in the order they were added. */
    var transactions: seq<Transaction>

    /** Start-up: the list read from storage, or an empty one when nothing was stored. */
    constructor (stored: Option<seq<Transaction>>)
      ensures transactions == if stored.Some? then stored.value else []
    {
      transactions := if stored.Some? then stored.value else [];
    }

    /** `addTransaction`: a rejected submission changes nothing; an accepted one
        appends exactly one record, last, and keeps the earlier ones as they were. */
    method AddTransaction(form: Form, id: int) returns (accepted: bool)
      modifies this
      ensures accepted <==> Accepts(form)
      ensures accepted ==> transactions == old(transactions) + [Record(form, id)]
      ensures !accepted ==> transactions == old(transactions)
      ensures UniqueIds(old(transactions)) && (forall k :: 0 <= k < |old(transactions)| ==> old(transactions)[k].id != id)
        ==> UniqueIds(transactions)
    {
      if Trim(form.text) == [] || form.amount.None? || form.date == [] {
        return false;
      }
      if UniqueIds(transactions) && forall k :: 0 <= k < |transactions| ==> transactions[k].id != id {
        AppendFreshKeepsUnique(transactions, Record(form, id));
      }
      transactions := transactions + [Record(form, id)];
      accepted := true;
    }

    /** `removeTransaction`: keep every record whose id differs. */
    method RemoveTransaction(id: int)
      modifies this
      ensures transactions == Without(old(transactions), id)
      ensures forall k :: 0 <= k < |transactions| ==> transactions[k].id != id
      ensures forall t :: t in old(transactions) && t.id != id ==> t in transactions
      ensures forall t :: multiset(transactions)[t] == if t.id != id then multiset(old(transactions))[t] else 0
      ensures IsSubsequence(transactions, old(transactions))
      ensures UniqueIds(old(transactions)) ==> UniqueIds(transactions)
    {
      WithoutIsSubsequence(transactions, id);
      if UniqueIds(transactions) {
        WithoutKeepsUnique(transactions, id);
      }
      transactions := Without(transactions, id);
    }

    /** `clearAll`, after the user has confirmed. */
    method ClearAll()
      modifies this
      ensures transactions == []
    {
      transactions := [];
    }

    /** `getFilteredTransactions`: the records passing all four filter tests, in ledger order. */
    function View(c: Criteria): (r: seq<Transaction>)
      reads this
      ensures IsSubsequence(r, transactions)
      ensures forall t :: t in r <==> t in transactions && Matches(t, c)
      ensures forall t :: multiset(r)[t] == if Matches(t, c) then multiset(transactions)[t] else 0
    {
      FilteredViewIsSubsequence(transactions, c);
      FilterMembers(transactions, MatchesCriteria(c));
      FilterCount(transactions, MatchesCriteria(c));
      FilteredView(transactions, c)
    }

    /** The balance, income and expense cards: `updateValues` over the filtered view. */
    function Cards(c: Criteria): (r: Balance)
      reads this
      ensures r.total == r.income - r.expense && r.income >= 0 && r.expense >= 0
      ensures r.total == Sum(Amounts(View(c)))
      ensures r.income == Sum(Filter(Amounts(View(c)), IsPositive))
      ensures r.expense == -Sum(Filter(Amounts(View(c)), IsNegative))
    {
      AggregateIsSums(View(c));
      Aggregate(View(c))
    }

    /** `updateMonthSummary` at the instant `nowIso` (an ISO-8601 timestamp): the month is
        taken from the full ledger, whatever the filter inputs hold. */
    function MonthCards(nowIso: string): (r: MonthTotals)
      reads this
      ensures r == MonthTotals(Aggregate(MonthData(transactions, MonthPrefix(nowIso))).income,
                               Aggregate(MonthData(transactions, MonthPrefix(nowIso))).expense)
    {
      MonthSummaryAsAggregate(transactions, MonthPrefix(nowIso));
      MonthSummary(transactions, MonthPrefix(nowIso))
    }

    /** `exportCSV`: nothing for an empty ledger, else the text built line by line. */
    method ExportCsv() returns (csv: Option<string>)
      ensures csv == Export(transactions)
    {
      var ts := transactions;
      if |ts| == 0 {
        return None;
      }
      var text := Header + "\n";
      ghost var head := text;
      for i := 0 to |ts|
        invariant text == head + Rows(ts[..i])
      {
        var line := Line(ts[i]);
        RowsSnoc(ts[..i], ts[i]);
        assert ts[..i + 1] == ts[..i] + [ts[i]];
        ConcatAssoc(head, Rows(ts[..i]), line, "\n");
        text := text + line + "\n";
      }
      assert ts[..|ts|] == ts;
      csv := Some(text);
    }
  }


  // Worked examples on two records: coffee (an expense) and salary (income).

  function Coffee(): Transaction { Transaction(1, "Coffee", -5000, "Food", "2024-03-05") }
  function Wage(): Transaction { Transaction(2, "Salary", 500000, "Salary", "2024-03-01") }
  function Rent(): Transaction { Transaction(3, "Rent", -100000, "Bills", "2024-04-01") }

  lemma CardsExample()
    ensures Aggregate([Coffee(), Wage()]) == Balance(495000, 500000, 5000)
  {
    AggregateAppend([], Coffee());
    AggregateAppend([Coffee()], Wage());
    assert [Coffee()] == [] + [Coffee()] && [Coffee(), Wage()] == [Coffee()] + [Wage()];
  }

  lemma SearchExample()
    ensures FilteredView([Coffee(), Wage()], Criteria("sal", AllCategories, "", "")) == [Wage()]
  {
    var c := Criteria("sal", AllCategories, "", "");
    assert Lower("Salary") == "salary" && Lower("sal") == "sal" && Lower("Coffee") == "coffee";
    assert StartsWith("salary", "sal");
    IncludesNeedsFirst("coffee", "sal");
    assert "salary"[..3] == "sal";
    assert !Matches(Coffee(), c) && Matches(Wage(), c);
  }

  lemma MarchExample()
    ensures MonthSummary([Coffee(), Wage()], "2024-03") == MonthTotals(500000, 5000)
  {
    var m := "2024-03";
    assert StartsWith(Coffee().date, m) && StartsWith(Wage().date, m);
    MonthSummaryAppendInMonth([], Coffee(), m);
    MonthSummaryAppendInMonth([Coffee()], Wage(), m);
    assert [Coffee()] == [] + [Coffee()] && [Coffee(), Wage()] == [Coffee()] + [Wage()];
  }

  /** Evaluated in March, the summary holds only the March records. */
  lemma MonthExample()
    ensures MonthSummary([Coffee(), Wage(), Rent()], MonthPrefix("2024-03-20T10:00:00.000Z")) == MonthTotals(500000, 5000)
  {
    var m := "2024-03";
    assert MonthPrefix("2024-03-20T10:00:00.000Z") == m;
    assert Rent().date[..7][6] == '4' != m[6];
    MarchExample();
    MonthSummaryAppendOther([Coffee(), Wage()], Rent(), m);
    assert [Coffee(), Wage(), Rent()] == [Coffee(), Wage()] + [Rent()];
  }
}
