/** Balance, income and expense over a list of records, and the income and
    expense of one calendar month over the whole ledger. Amounts are exact
    integers (hundredths), so every identity below holds without rounding. */
module Totals {
  import opened Seqs
  import opened Text
  import opened Transactions

  /** `data.map(t => t.amount)`. */
  function Amounts(ts: seq<Transaction>): (r: seq<int>)
    ensures |r| == |ts|
    ensures forall k :: 0 <= k < |ts| ==> r[k] == ts[k].amount
  {
    if ts == [] then [] else [ts[0].amount] + Amounts(ts[1..])
  }

  /** `vs.reduce((a, v) => a + v, acc)`: a left fold from the first element. */
  function Reduce(vs: seq<int>, acc: int): int
  {
    if vs == [] then acc else Reduce(vs[1..], acc + vs[0])
  }

  /** `ts.reduce((a, v) => a + v.amount, acc)`, the fold the monthly summary uses. */
  function ReduceAmounts(ts: seq<Transaction>, acc: int): int
  {
    if ts == [] then acc else ReduceAmounts(ts[1..], acc + ts[0].amount)
  }

  /** Reference definition of the sum of a list. */
  function Sum(vs: seq<int>): int
  {
    if vs == [] then 0 else vs[0] + Sum(vs[1..])
  }

  predicate IsPositive(v: int) { v > 0 }
  predicate IsNegative(v: int) { v < 0 }
  predicate IsIncome(t: Transaction) { t.amount > 0 }
  predicate IsExpense(t: Transaction) { t.amount < 0 }

  /** The fold computes the sum, started from the accumulator. */
  lemma {:induction false} ReduceIsSum(vs: seq<int>, acc: int)
    ensures Reduce(vs, acc) == acc + Sum(vs)
  {
    if vs != [] {
      ReduceIsSum(vs[1..], acc + vs[0]);
    }
  }

  lemma {:induction false} ReduceAmountsIsSum(ts: seq<Transaction>, acc: int)
    ensures ReduceAmounts(ts, acc) == acc + Sum(Amounts(ts))
  {
    if ts != [] {
      ReduceAmountsIsSum(ts[1..], acc + ts[0].amount);
    }
  }

  lemma {:induction false} SumAppend(a: seq<int>, b: seq<int>)
    ensures Sum(a + b) == Sum(a) + Sum(b)
  {
    if a == [] {
      assert a + b == b;
    } else {
      assert (a + b)[1..] == a[1..] + b;
      SumAppend(a[1..], b);
    }
  }

  lemma {:induction false} SumOfPositives(vs: seq<int>)
    ensures Sum(Filter(vs, IsPositive)) >= 0
  {
    if vs != [] {
      SumOfPositives(vs[1..]);
    }
  }

  lemma {:induction false} SumOfNegatives(vs: seq<int>)
    ensures Sum(Filter(vs, IsNegative)) <= 0
  {
    if vs != [] {
      SumOfNegatives(vs[1..]);
    }
  }

  /** Every amount is positive, negative or zero, and zeros add nothing. */
  lemma {:induction false} SumSplitsBySign(vs: seq<int>)
    ensures Sum(vs) == Sum(Filter(vs, IsPositive)) + Sum(Filter(vs, IsNegative))
  {
    if vs != [] {
      SumSplitsBySign(vs[1..]);
    }
  }

  lemma {:induction false} AmountsConcat(a: seq<Transaction>, b: seq<Transaction>)
    ensures Amounts(a + b) == Amounts(a) + Amounts(b)
  {
    if a == [] {
      assert a + b == b;
    } else {
      assert (a + b)[1..] == a[1..] + b;
      AmountsConcat(a[1..], b);
    }
  }

  /** Selecting income records, then taking amounts, equals taking amounts, then the positive ones. */
  lemma {:induction false} AmountsOfIncome(ts: seq<Transaction>)
    ensures Amounts(Filter(ts, IsIncome)) == Filter(Amounts(ts), IsPositive)
  {
    if ts != [] {
      var rest := Filter(ts[1..], IsIncome);
      AmountsOfIncome(ts[1..]);
      if IsIncome(ts[0]) {
        assert Filter(ts, IsIncome) == [ts[0]] + rest;
        assert Amounts([ts[0]] + rest) == [ts[0].amount] + Amounts(rest) by {
          assert ([ts[0]] + rest)[1..] == rest;
        }
      }
    }
  }

  /** The same for expense records and negative amounts. */
  lemma {:induction false} AmountsOfExpense(ts: seq<Transaction>)
    ensures Amounts(Filter(ts, IsExpense)) == Filter(Amounts(ts), IsNegative)
  {
    if ts != [] {
      var rest := Filter(ts[1..], IsExpense);
      AmountsOfExpense(ts[1..]);
      if IsExpense(ts[0]) {
        assert Filter(ts, IsExpense) == [ts[0]] + rest;
        assert Amounts([ts[0]] + rest) == [ts[0].amount] + Amounts(rest) by {
          assert ([ts[0]] + rest)[1..] == rest;
        }
      }
    }
  }

  /** The three figures of the balance cards. */
  datatype Balance = Balance(total: int, income: int, expense: int)

  /** `updateValues`: balance, income and expense (a non-negative magnitude) over `ts`. */
  function Aggregate(ts: seq<Transaction>): (r: Balance)
    ensures r.income >= 0 && r.expense >= 0
    ensures r.total == r.income - r.expense
  {
    var amounts := Amounts(ts);
    var income := Filter(amounts, IsPositive);
    var expense := Filter(amounts, IsNegative);
    ReduceIsSum(amounts, 0);
    ReduceIsSum(income, 0);
    ReduceIsSum(expense, 0);
    SumOfPositives(amounts);
    SumOfNegatives(amounts);
    SumSplitsBySign(amounts);
    Balance(Reduce(amounts, 0), Reduce(income, 0), -Reduce(expense, 0))
  }

  /** The figures are sums: balance of all amounts, income of the positive ones,
      expense of the negated negative ones. */
  lemma AggregateIsSums(ts: seq<Transaction>)
    ensures Aggregate(ts).total == Sum(Amounts(ts))
    ensures Aggregate(ts).income == Sum(Filter(Amounts(ts), IsPositive))
    ensures Aggregate(ts).expense == -Sum(Filter(Amounts(ts), IsNegative))
  {
    ReduceIsSum(Amounts(ts), 0);
    ReduceIsSum(Filter(Amounts(ts), IsPositive), 0);
    ReduceIsSum(Filter(Amounts(ts), IsNegative), 0);
  }

  /** One more record adds its amount to the balance, and to income if positive
      or (negated) to expense if negative; a zero amount changes neither. */
  lemma AggregateAppend(ts: seq<Transaction>, t: Transaction)
    ensures Aggregate(ts + [t]).total == Aggregate(ts).total + t.amount
    ensures Aggregate(ts + [t]).income == Aggregate(ts).income + (if t.amount > 0 then t.amount else 0)
    ensures Aggregate(ts + [t]).expense == Aggregate(ts).expense + (if t.amount < 0 then -t.amount else 0)
  {
    var a, b := Amounts(ts), [t.amount];
    assert [t][1..] == [] && b[1..] == [];
    assert Amounts([t]) == b && Sum(b) == t.amount;
    AmountsConcat(ts, [t]);
    AggregateIsSums(ts);
    AggregateIsSums(ts + [t]);
    SumAppend(a, b);
    FilterAppend(a, b, IsPositive);
    SumAppend(Filter(a, IsPositive), Filter(b, IsPositive));
    FilterAppend(a, b, IsNegative);
    SumAppend(Filter(a, IsNegative), Filter(b, IsNegative));
    assert Filter(b, IsPositive) == if t.amount > 0 then b else [];
    assert Filter(b, IsNegative) == if t.amount < 0 then b else [];
  }

  /** A list of records contributes the sum of its parts. */
  lemma AggregateConcat(a: seq<Transaction>, b: seq<Transaction>)
    ensures Aggregate(a + b).total == Aggregate(a).total + Aggregate(b).total
    ensures Aggregate(a + b).income == Aggregate(a).income + Aggregate(b).income
    ensures Aggregate(a + b).expense == Aggregate(a).expense + Aggregate(b).expense
  {
    var x, y := Amounts(a), Amounts(b);
    AmountsConcat(a, b);
    AggregateIsSums(a);
    AggregateIsSums(b);
    AggregateIsSums(a + b);
    SumAppend(x, y);
    FilterAppend(x, y, IsPositive);
    SumAppend(Filter(x, IsPositive), Filter(y, IsPositive));
    FilterAppend(x, y, IsNegative);
    SumAppend(Filter(x, IsNegative), Filter(y, IsNegative));
  }

  /** `toISOString().slice(0, 7)`: the `YYYY-MM` part of an ISO-8601 instant. */
  function MonthPrefix(iso: string): (m: string)
    ensures |m| == if |iso| < 7 then |iso| else 7
    ensures StartsWith(iso, m)
  {
    if |iso| < 7 then iso else iso[..7]
  }

  function InMonth(month: string): Transaction -> bool
  {
    (t: Transaction) => StartsWith(t.date, month)
  }

  /** The records of the whole ledger dated in `month`. */
  function MonthData(ts: seq<Transaction>, month: string): (r: seq<Transaction>)
    ensures forall t :: t in r <==> t in ts && StartsWith(t.date, month)
  {
    FilterMembers(ts, InMonth(month));
    Filter(ts, InMonth(month))
  }

  /** The month's data keeps every copy of a record dated in the month, and none of the others. */
  lemma MonthDataCount(ts: seq<Transaction>, month: string)
    ensures forall t :: multiset(MonthData(ts, month))[t] == if StartsWith(t.date, month) then multiset(ts)[t] else 0
  {
    FilterCount(ts, InMonth(month));
  }

  datatype MonthTotals = MonthTotals(income: int, expense: int)

  /** `updateMonthSummary` for the month `month`. */
  function MonthSummary(ts: seq<Transaction>, month: string): (r: MonthTotals)
    ensures r.income >= 0 && r.expense >= 0
  {
    var md := MonthData(ts, month);
    MonthSummaryIsAggregate(ts, month);
    MonthTotals(ReduceAmounts(Filter(md, IsIncome), 0), -ReduceAmounts(Filter(md, IsExpense), 0))
  }

  /** The monthly figures are the income and expense of `Aggregate` over that month's records. */
  lemma MonthSummaryIsAggregate(ts: seq<Transaction>, month: string)
    ensures var md := MonthData(ts, month);
      ReduceAmounts(Filter(md, IsIncome), 0) == Aggregate(md).income &&
      -ReduceAmounts(Filter(md, IsExpense), 0) == Aggregate(md).expense
  {
    var md := MonthData(ts, month);
    AggregateIsSums(md);
    AmountsOfIncome(md);
    AmountsOfExpense(md);
    ReduceAmountsIsSum(Filter(md, IsIncome), 0);
    ReduceAmountsIsSum(Filter(md, IsExpense), 0);
  }

  /** The monthly figures as three-field totals: `Aggregate` of the month's records. */
  lemma MonthSummaryAsAggregate(ts: seq<Transaction>, month: string)
    ensures MonthSummary(ts, month) ==
      MonthTotals(Aggregate(MonthData(ts, month)).income, Aggregate(MonthData(ts, month)).expense)
  {
    MonthSummaryIsAggregate(ts, month);
  }

  /** A record dated outside the month leaves the summary as it was. */
  lemma MonthSummaryAppendOther(ts: seq<Transaction>, t: Transaction, month: string)
    requires !StartsWith(t.date, month)
    ensures MonthSummary(ts + [t], month) == MonthSummary(ts, month)
  {
    FilterAppend(ts, [t], InMonth(month));
    assert MonthData(ts + [t], month) == MonthData(ts, month);
  }

  /** A record dated inside the month adds its amount to income (if positive) or its
      magnitude to expense (if negative). */
  lemma MonthSummaryAppendInMonth(ts: seq<Transaction>, t: Transaction, month: string)
    requires StartsWith(t.date, month)
    ensures MonthSummary(ts + [t], month).income ==
      MonthSummary(ts, month).income + (if t.amount > 0 then t.amount else 0)
    ensures MonthSummary(ts + [t], month).expense ==
      MonthSummary(ts, month).expense + (if t.amount < 0 then -t.amount else 0)
  {
    var md := MonthData(ts, month);
    FilterAppend(ts, [t], InMonth(month));
    assert MonthData(ts + [t], month) == md + [t];
    MonthSummaryAsAggregate(ts, month);
    MonthSummaryAsAggregate(ts + [t], month);
    AggregateAppend(md, t);
  }

  /** Records of other months never count: the summary depends only on the month's records. */
  lemma MonthSummaryOnlyMonth(ts: seq<Transaction>, month: string)
    ensures MonthSummary(ts, month) == MonthSummary(MonthData(ts, month), month)
  {
    var md := MonthData(ts, month);
    FilterIdempotent(ts, InMonth(month));
    assert MonthData(md, month) == md;
  }
}
