/**
 The money arithmetic of the front end (App.js): the currency symbol of a
 code, the transactions built from the numbers found in an imported file or
 in typed text with their summaries, the split of an analysis into money
 received and money given, and the outstanding total of the loans.

 Amounts are integers (say, cents). The numbers found in a file or text,
 today's date and the ids and timestamps of new records are not modelled:
 the numbers and the date are parameters.
 */
module Finance {
  import opened Base
  import opened Text

  // ---------------------------------------------------------------------------
  // Currency symbol

  /** The codes `symbolFromCode` knows, upper-case, with their symbols. */
  const KnownSymbols: map<string, string> := map["INR" := "₹", "USD" := "$", "EUR" := "€", "GBP" := "£"]

  /**
   `symbolFromCode`: a known code in any letter case gives its symbol; any
   other code is returned as it is, and a missing or empty one gives `$`.
   */
  function SymbolFromCode(code: Option<string>): (r: string)
    ensures code.Some? && Upper(code.value) in KnownSymbols ==> r == KnownSymbols[Upper(code.value)]
    ensures code.Some? && code.value != "" && Upper(code.value) !in KnownSymbols ==> r == code.value
    ensures code.None? || code.value == "" ==> r == "$"
  {
    var upper := Upper(code.GetOr(""));
    if upper in KnownSymbols then KnownSymbols[upper]
    else if code.Some? && code.value != "" then code.value
    else "$"
  }

  /** Known codes are matched without regard to letter case. */
  lemma SymbolIgnoresCase(code: string)
    requires Upper(code) in KnownSymbols
    ensures SymbolFromCode(Some(code)) == SymbolFromCode(Some(Lower(code))) == SymbolFromCode(Some(Upper(code)))
  {
    UpperOfLower(code);
    UpperIdempotent(code);
  }

  lemma UpperIdempotent(s: string)
    ensures Upper(Upper(s)) == Upper(s)
  {
    assert forall i :: 0 <= i < |s| ==> UpperChar(UpperChar(s[i])) == UpperChar(s[i]);
  }

  // ---------------------------------------------------------------------------
  // Transactions and their summary

  datatype TxnKind = Income | Expense

  /** A transaction; income has a positive amount. */
  datatype Txn = Txn(amount: int, kind: TxnKind, description: string, category: string, date: string)

  datatype TxnSummary = TxnSummary(totalIncome: int, totalExpenses: int, netAmount: int, transactionCount: nat)

  /** `filter(t => t.amount > 0).reduce((s, t) => s + t.amount, 0)`. */
  function IncomeTotal(txns: seq<Txn>): (r: int)
    ensures r >= 0
  {
    if |txns| == 0 then 0
    else IncomeTotal(txns[..|txns| - 1]) + (if txns[|txns| - 1].amount > 0 then txns[|txns| - 1].amount else 0)
  }

  /** `filter(t => t.amount < 0).reduce((s, t) => s + Math.abs(t.amount), 0)`. */
  function ExpenseTotal(txns: seq<Txn>): (r: int)
    ensures r >= 0
  {
    if |txns| == 0 then 0
    else ExpenseTotal(txns[..|txns| - 1]) + (if txns[|txns| - 1].amount < 0 then -txns[|txns| - 1].amount else 0)
  }

  /** `reduce((s, t) => s + t.amount, 0)`. */
  function AmountTotal(txns: seq<Txn>): int {
    if |txns| == 0 then 0
    else AmountTotal(txns[..|txns| - 1]) + txns[|txns| - 1].amount
  }

  /** The net of all amounts is the income less the expenses. */
  lemma {:induction false} NetIsIncomeLessExpenses(txns: seq<Txn>)
    ensures AmountTotal(txns) == IncomeTotal(txns) - ExpenseTotal(txns)
    decreases |txns|
  {
    if |txns| > 0 {
      NetIsIncomeLessExpenses(txns[..|txns| - 1]);
    }
  }

  /**
   The file import's transactions: the first number, if positive, is income;
   every other number becomes an expense of its magnitude.
   */
  function ImportTransactions(nums: seq<int>, today: string): (r: seq<Txn>)
    ensures |r| == |nums|
    ensures forall i :: 0 <= i < |r| ==> (r[i].kind == Income <==> i == 0 && nums[i] > 0)
    ensures forall i :: 0 <= i < |r| ==> r[i].amount == (if r[i].kind == Income then nums[i] else -(Abs(nums[i]) as int))
  {
    seq(|nums|, i requires 0 <= i < |nums| =>
      if nums[i] > 0 && i == 0 then Txn(Abs(nums[i]), Income, "Imported Income", "Imported", today)
      else Txn(-(Abs(nums[i]) as int), Expense, "Imported Expense", "Imported", today))
  }

  /** The file import's summary: its net is computed as income less expenses. */
  function ImportSummary(txns: seq<Txn>): (r: TxnSummary)
    ensures r.netAmount == AmountTotal(txns)
    ensures r.totalIncome >= 0 && r.totalExpenses >= 0 && r.transactionCount == |txns|
  {
    NetIsIncomeLessExpenses(txns);
    var income := IncomeTotal(txns);
    var expenses := ExpenseTotal(txns);
    TxnSummary(income, expenses, income - expenses, |txns|)
  }

  /** The sum of the magnitudes of `nums`. */
  function AbsTotal(nums: seq<int>): nat {
    if |nums| == 0 then 0 else AbsTotal(nums[..|nums| - 1]) + Abs(nums[|nums| - 1])
  }

  lemma {:induction false} ExpensesOfImport(nums: seq<int>, txns: seq<Txn>)
    requires |txns| == |nums|
    requires forall i :: 0 <= i < |txns| ==> txns[i].amount == -(Abs(nums[i]) as int)
    ensures ExpenseTotal(txns) == AbsTotal(nums)
    ensures IncomeTotal(txns) == 0
    decreases |nums|
  {
    if |nums| > 0 {
      ExpensesOfImport(nums[..|nums| - 1], txns[..|txns| - 1]);
    }
  }

  lemma {:induction false} FirstThenRest(txns: seq<Txn>)
    requires |txns| > 0
    ensures IncomeTotal(txns) == IncomeTotal([txns[0]]) + IncomeTotal(txns[1..])
    ensures ExpenseTotal(txns) == ExpenseTotal([txns[0]]) + ExpenseTotal(txns[1..])
    decreases |txns|
  {
    if |txns| > 1 {
      var init := txns[..|txns| - 1];
      FirstThenRest(init);
      assert init[1..] == txns[1..][..|txns[1..]| - 1];
      assert [txns[0]][..0] == [];
    } else {
      assert txns == [txns[0]];
      assert txns[1..] == [];
    }
  }

  /**
   The import summary in closed form: the income is the first number when it
   is positive, the expenses are the magnitudes of all the other numbers, the
   net is their difference and the count is the number of numbers.
   */
  lemma ImportSummarySpec(nums: seq<int>, today: string)
    requires |nums| > 0
    ensures var s := ImportSummary(ImportTransactions(nums, today));
      && s.totalIncome == (if nums[0] > 0 then nums[0] else 0)
      && s.totalExpenses == (if nums[0] > 0 then 0 else Abs(nums[0])) + AbsTotal(nums[1..])
      && s.netAmount == s.totalIncome - s.totalExpenses
      && s.netAmount == AmountTotal(ImportTransactions(nums, today))
      && s.transactionCount == |nums|
  {
    var txns := ImportTransactions(nums, today);
    FirstThenRest(txns);
    ExpensesOfImport(nums[1..], txns[1..]);
    assert [txns[0]][..0] == [];
    NetIsIncomeLessExpenses(txns);
  }

  /** The typed-text analysis's transactions: each amount is the number itself, income exactly when positive. */
  function TextTransactions(nums: seq<int>, today: string): (r: seq<Txn>)
    ensures |r| == |nums|
    ensures forall i :: 0 <= i < |r| ==> r[i].amount == nums[i]
    ensures forall i :: 0 <= i < |r| ==> (r[i].kind == Income <==> nums[i] > 0)
  {
    seq(|nums|, i requires 0 <= i < |nums| =>
      Txn(if nums[i] > 0 then nums[i] else -(Abs(nums[i]) as int),
          if nums[i] > 0 then Income else Expense,
          "Text entry " + ShowNat(i + 1), "Other", today))
  }

  /** The typed-text summary: here the net is the sum of all amounts. */
  function TextSummary(txns: seq<Txn>): (r: TxnSummary)
    ensures r == ImportSummary(txns)
  {
    NetIsIncomeLessExpenses(txns);
    TxnSummary(IncomeTotal(txns), ExpenseTotal(txns), AmountTotal(txns), |txns|)
  }

  /** The sum of the positive numbers. */
  function PositiveTotal(nums: seq<int>): nat {
    if |nums| == 0 then 0
    else PositiveTotal(nums[..|nums| - 1]) + (if nums[|nums| - 1] > 0 then nums[|nums| - 1] else 0)
  }

  /** The sum of the magnitudes of the negative numbers. */
  function NegativeTotal(nums: seq<int>): nat {
    if |nums| == 0 then 0
    else NegativeTotal(nums[..|nums| - 1]) + (if nums[|nums| - 1] < 0 then -nums[|nums| - 1] else 0)
  }

  lemma {:induction false} TextTotals(nums: seq<int>, txns: seq<Txn>)
    requires |txns| == |nums|
    requires forall i :: 0 <= i < |txns| ==> txns[i].amount == nums[i]
    ensures IncomeTotal(txns) == PositiveTotal(nums)
    ensures ExpenseTotal(txns) == NegativeTotal(nums)
    ensures AmountTotal(txns) == Sum(nums)
    decreases |nums|
  {
    if |nums| > 0 {
      TextTotals(nums[..|nums| - 1], txns[..|txns| - 1]);
    }
  }

  /**
   The text summary in closed form: the income is the sum of the positive
   numbers, the expenses the magnitudes of the negative ones, and the net,
   the sum of all numbers, is also income less expenses.
   */
  lemma TextSummarySpec(nums: seq<int>, today: string)
    ensures var s := TextSummary(TextTransactions(nums, today));
      && s.totalIncome == PositiveTotal(nums)
      && s.totalExpenses == NegativeTotal(nums)
      && s.netAmount == Sum(nums)
      && s.netAmount == s.totalIncome - s.totalExpenses
      && s.transactionCount == |nums|
  {
    TextTotals(nums, TextTransactions(nums, today));
  }

  // ---------------------------------------------------------------------------
  // Received and given money

  datatype Received = Received(amount: int, source: string, reason: string, date: string, category: string)
  datatype Given = Given(amount: int, recipient: string, reason: string, date: string, category: string)

  /** JavaScript's `a || b` on strings. */
  function OrElse(a: string, b: string): string {
    if a != "" then a else b
  }

  function AsReceived(t: Txn, today: string): Received {
    Received(t.amount, OrElse(t.description, "Imported"), OrElse(t.category, t.description), OrElse(t.date, today), OrElse(t.category, "Imported"))
  }

  function AsGiven(t: Txn, today: string): Given {
    Given(Abs(t.amount), OrElse(t.description, "Imported"), OrElse(t.category, t.description), OrElse(t.date, today), OrElse(t.category, "Imported"))
  }

  /** The transactions with a positive amount, as received money, in order. */
  function Incomes(txns: seq<Txn>, today: string): seq<Received> {
    if |txns| == 0 then []
    else
      var t := txns[|txns| - 1];
      Incomes(txns[..|txns| - 1], today) + (if t.amount > 0 then [AsReceived(t, today)] else [])
  }

  /** The others (zero included), as given money of their magnitude, in order. */
  function Expenses(txns: seq<Txn>, today: string): seq<Given> {
    if |txns| == 0 then []
    else
      var t := txns[|txns| - 1];
      Expenses(txns[..|txns| - 1], today) + (if t.amount <= 0 then [AsGiven(t, today)] else [])
  }

  /**
   `handleDataExtracted`: without a transaction list nothing changes;
   otherwise the incomes are put in front of the received list and the rest
   in front of the given list.
   */
  function HandleDataExtracted(txns: Option<seq<Txn>>, received: seq<Received>, given: seq<Given>, today: string): (r: (seq<Received>, seq<Given>))
    ensures txns.None? ==> r == (received, given)
    ensures txns.Some? ==>
      && |r.0| >= |received| && |r.1| >= |given|
      && r.0[|r.0| - |received|..] == received && r.1[|r.1| - |given|..] == given
      && |r.0| - |received| + |r.1| - |given| == |txns.value|
  {
    match txns
    case None => (received, given)
    case Some(t) =>
      SplitCount(t, today);
      (Incomes(t, today) + received, Expenses(t, today) + given)
  }

  function ReceivedTotal(rs: seq<Received>): int {
    if |rs| == 0 then 0 else ReceivedTotal(rs[..|rs| - 1]) + rs[|rs| - 1].amount
  }

  function GivenTotal(gs: seq<Given>): int {
    if |gs| == 0 then 0 else GivenTotal(gs[..|gs| - 1]) + gs[|gs| - 1].amount
  }

  /**
   The split keeps every transaction exactly once, in its order: each side
   distributes over concatenation, one transaction goes to exactly one side,
   and the two sides carry the income and the expense totals.
   */
  lemma SplitSpec(txns: seq<Txn>, today: string)
    ensures |Incomes(txns, today)| + |Expenses(txns, today)| == |txns|
    ensures ReceivedTotal(Incomes(txns, today)) == IncomeTotal(txns)
    ensures GivenTotal(Expenses(txns, today)) == ExpenseTotal(txns)
  {
    SplitCount(txns, today);
    IncomesTotal(txns, today);
    ExpensesTotal(txns, today);
  }

  lemma {:induction false} SplitCount(txns: seq<Txn>, today: string)
    ensures |Incomes(txns, today)| + |Expenses(txns, today)| == |txns|
    decreases |txns|
  {
    if |txns| > 0 {
      SplitCount(txns[..|txns| - 1], today);
    }
  }

  lemma {:induction false} IncomesTotal(txns: seq<Txn>, today: string)
    ensures ReceivedTotal(Incomes(txns, today)) == IncomeTotal(txns)
    decreases |txns|
  {
    if |txns| > 0 {
      var init := txns[..|txns| - 1];
      var t := txns[|txns| - 1];
      IncomesTotal(init, today);
      if t.amount > 0 {
        var r := Incomes(init, today) + [AsReceived(t, today)];
        assert r[..|r| - 1] == Incomes(init, today);
      } else {
        assert Incomes(txns, today) == Incomes(init, today);
      }
    }
  }

  lemma {:induction false} ExpensesTotal(txns: seq<Txn>, today: string)
    ensures GivenTotal(Expenses(txns, today)) == ExpenseTotal(txns)
    decreases |txns|
  {
    if |txns| > 0 {
      var init := txns[..|txns| - 1];
      var t := txns[|txns| - 1];
      ExpensesTotal(init, today);
      if t.amount <= 0 {
        var g := Expenses(init, today) + [AsGiven(t, today)];
        assert g[..|g| - 1] == Expenses(init, today);
      } else {
        assert Expenses(txns, today) == Expenses(init, today);
      }
    }
  }

  lemma {:induction false} SplitAppend(a: seq<Txn>, b: seq<Txn>, today: string)
    ensures Incomes(a + b, today) == Incomes(a, today) + Incomes(b, today)
    ensures Expenses(a + b, today) == Expenses(a, today) + Expenses(b, today)
    decreases |b|
  {
    if |b| == 0 {
      assert a + b == a;
    } else {
      var b' := b[..|b| - 1];
      assert (a + b)[..|a + b| - 1] == a + b';
      SplitAppend(a, b', today);
    }
  }

  lemma SplitOne(t: Txn, today: string)
    ensures t.amount > 0 ==> Incomes([t], today) == [AsReceived(t, today)] && Expenses([t], today) == []
    ensures t.amount <= 0 ==> Incomes([t], today) == [] && Expenses([t], today) == [AsGiven(t, today)]
  {
    assert [t][..0] == [];
  }

  /** The received side holds the positive transactions and nothing else. */
  lemma {:induction false} IncomesMembers(txns: seq<Txn>, today: string)
    ensures forall x :: x in Incomes(txns, today) <==>
      exists i :: 0 <= i < |txns| && txns[i].amount > 0 && x == AsReceived(txns[i], today)
    decreases |txns|
  {
    if |txns| > 0 {
      var init := txns[..|txns| - 1];
      IncomesMembers(init, today);
      forall x
        ensures x in Incomes(txns, today) <==>
          exists i :: 0 <= i < |txns| && txns[i].amount > 0 && x == AsReceived(txns[i], today)
      {
        if x in Incomes(txns, today) && x !in Incomes(init, today) {
          assert txns[|txns| - 1].amount > 0 && x == AsReceived(txns[|txns| - 1], today);
        }
        if x in Incomes(init, today) {
          var i :| 0 <= i < |init| && init[i].amount > 0 && x == AsReceived(init[i], today);
          assert txns[i] == init[i];
        }
        if exists i :: 0 <= i < |txns| && txns[i].amount > 0 && x == AsReceived(txns[i], today) {
          var i :| 0 <= i < |txns| && txns[i].amount > 0 && x == AsReceived(txns[i], today);
          if i < |init| {
            assert init[i] == txns[i];
          }
        }
      }
    }
  }

  /** The given side holds the other transactions, zero amounts included, and nothing else. */
  lemma {:induction false} ExpensesMembers(txns: seq<Txn>, today: string)
    ensures forall x :: x in Expenses(txns, today) <==>
      exists i :: 0 <= i < |txns| && txns[i].amount <= 0 && x == AsGiven(txns[i], today)
    decreases |txns|
  {
    if |txns| > 0 {
      var init := txns[..|txns| - 1];
      ExpensesMembers(init, today);
      forall x
        ensures x in Expenses(txns, today) <==>
          exists i :: 0 <= i < |txns| && txns[i].amount <= 0 && x == AsGiven(txns[i], today)
      {
        if x in Expenses(txns, today) && x !in Expenses(init, today) {
          assert txns[|txns| - 1].amount <= 0 && x == AsGiven(txns[|txns| - 1], today);
        }
        if x in Expenses(init, today) {
          var i :| 0 <= i < |init| && init[i].amount <= 0 && x == AsGiven(init[i], today);
          assert txns[i] == init[i];
        }
        if exists i :: 0 <= i < |txns| && txns[i].amount <= 0 && x == AsGiven(txns[i], today) {
          var i :| 0 <= i < |txns| && txns[i].amount <= 0 && x == AsGiven(txns[i], today);
          if i < |init| {
            assert init[i] == txns[i];
          }
        }
      }
    }
  }

  /**
   What `handleDataExtracted` puts in front of each list: on the received
   side exactly the positive transactions, on the given side exactly the
   others, every given amount the magnitude of its transaction, and the two
   fronts carry the income and the expense totals.
   */
  lemma HandleDataExtractedSpec(txns: seq<Txn>, received: seq<Received>, given: seq<Given>, today: string)
    ensures var r := HandleDataExtracted(Some(txns), received, given, today);
      var newR := r.0[..|r.0| - |received|];
      var newG := r.1[..|r.1| - |given|];
      && (forall x :: x in newR <==> exists i :: 0 <= i < |txns| && txns[i].amount > 0 && x == AsReceived(txns[i], today))
      && (forall x :: x in newG <==> exists i :: 0 <= i < |txns| && txns[i].amount <= 0 && x == AsGiven(txns[i], today))
      && (forall j :: 0 <= j < |newG| ==> newG[j].amount >= 0)
      && ReceivedTotal(newR) == IncomeTotal(txns)
      && GivenTotal(newG) == ExpenseTotal(txns)
  {
    var r := HandleDataExtracted(Some(txns), received, given, today);
    FrontOf(Incomes(txns, today), received, r.0);
    FrontOf(Expenses(txns, today), given, r.1);
    IncomesMembers(txns, today);
    ExpensesMembers(txns, today);
    GivenNonNegative(Expenses(txns, today));
    SplitSpec(txns, today);
  }

  lemma FrontOf<T>(front: seq<T>, prev: seq<T>, r: seq<T>)
    requires r == front + prev
    ensures r[..|r| - |prev|] == front
  {
  }

  lemma GivenNonNegative(gs: seq<Given>)
    requires forall x :: x in gs ==> x.amount >= 0
    ensures forall j :: 0 <= j < |gs| ==> gs[j].amount >= 0
  {
  }

  // ---------------------------------------------------------------------------
  // Loans

  /** A loan as the loan manager keeps it: the principal (missing or empty as `None`) and the status. */
  datatype Loan = Loan(principal: Option<int>, status: string)

  const Paid: string := "paid"

  /** `Number(l.principal || 0)` for a loan that is not paid, and 0 for one that is. */
  function Outstanding(l: Loan): int {
    if l.status != Paid then l.principal.GetOr(0) else 0
  }

  /** `totalOutstanding`. */
  function TotalOutstanding(loans: seq<Loan>): (r: int)
    ensures (forall j :: 0 <= j < |loans| ==> loans[j].status == Paid) ==> r == 0
    ensures (forall j :: 0 <= j < |loans| ==> loans[j].principal.GetOr(0) >= 0) ==> r >= 0
  {
    if |loans| == 0 then 0 else TotalOutstanding(loans[..|loans| - 1]) + Outstanding(loans[|loans| - 1])
  }

  lemma {:induction false} TotalOutstandingAppend(a: seq<Loan>, b: seq<Loan>)
    ensures TotalOutstanding(a + b) == TotalOutstanding(a) + TotalOutstanding(b)
    decreases |b|
  {
    if |b| == 0 {
      assert a + b == a;
    } else {
      var b' := b[..|b| - 1];
      assert (a + b)[..|a + b| - 1] == a + b';
      TotalOutstandingAppend(a, b');
    }
  }

  /**
   The total counts each unpaid loan's principal once and no paid one:
   marking an unpaid loan paid lowers it by that loan's principal, and
   marking a paid one changes nothing.
   */
  lemma MarkPaid(loans: seq<Loan>, i: nat)
    requires i < |loans|
    ensures var l := loans[i];
      TotalOutstanding(loans[i := l.(status := Paid)]) == TotalOutstanding(loans) - Outstanding(l)
  {
    var before := loans[..i];
    var after := loans[i + 1..];
    var l := loans[i];
    var m := l.(status := Paid);
    assert loans == before + [l] + after;
    assert loans[i := m] == before + [m] + after;
    TotalOutstandingAppend(before + [l], after);
    TotalOutstandingAppend(before, [l]);
    TotalOutstandingAppend(before + [m], after);
    TotalOutstandingAppend(before, [m]);
    assert [l][..0] == [] && [m][..0] == [];
  }
}
