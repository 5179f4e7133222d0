/** The budget engine behind the `/dashboard` endpoint: from the expense
    records, today's day number, the starting budget and the deadline it
    derives the money spent, the money left, the days left and the
    recommended limit for today. */
module Budget {
  import opened Expenses
  import Calendar

  /** The starting budget (400 euro plus 2600 dinar, in dinar). */
  const TotalStartBudget: real := 47300.0

  /** The deadline, 2026-02-10, as a day number. */
  const EndDate: int := Calendar.Ordinal(2026, 2, 10)

  /** The figures the dashboard returns, before rounding for display. */
  datatype Snapshot = Snapshot(
    remainingTotal: real,
    daysLeft: int,
    dailyLimit: real,
    totalSpent: real,
    today: int)

  /** Today's allowance: the remainder spread evenly over the days left, or
      the whole remainder once no day is left. The divisor is never zero or
      negative. */
  function DailyLimit(remaining: real, daysLeft: int): (r: real)
    ensures daysLeft > 0 ==> r * (daysLeft as real) == remaining
    ensures daysLeft <= 0 ==> r == remaining
    ensures (r < 0.0 <==> remaining < 0.0) && (r == 0.0 <==> remaining == 0.0)
  {
    if daysLeft > 0 then remaining / (daysLeft as real) else remaining
  }

  /** The dashboard for any starting budget and deadline. For every ledger
      and date: the total is the sum of the amounts; the remainder is the
      start less the total and is negative exactly when overspent; the days
      left are the deadline less today, positive before the deadline, zero on
      it and negative after it; the daily limit spreads the remainder over
      the days left, or is the whole remainder when none are left. */
  function Compute(records: seq<Expense>, today: int, startBudget: real, endDate: int): (s: Snapshot)
    ensures s.totalSpent == TotalSpent(records)
    ensures s.remainingTotal == startBudget - s.totalSpent
    ensures s.daysLeft == endDate - today
    ensures (s.daysLeft > 0 <==> today < endDate) && (s.daysLeft == 0 <==> today == endDate)
    ensures s.daysLeft > 0 ==> s.dailyLimit * (s.daysLeft as real) == s.remainingTotal
    ensures s.daysLeft <= 0 ==> s.dailyLimit == s.remainingTotal
    ensures (s.totalSpent > startBudget <==> s.remainingTotal < 0.0)
    ensures (s.remainingTotal < 0.0 <==> s.dailyLimit < 0.0)
    ensures s.today == today
  {
    var totalSpent := TotalSpent(records);
    var remaining := startBudget - totalSpent;
    var daysLeft := endDate - today;
    Snapshot(remaining, daysLeft, DailyLimit(remaining, daysLeft), totalSpent, today)
  }

  /** The dashboard with the program's own budget and deadline: days are
      counted to day 739657, the number Python's `date.toordinal` gives
      2026-02-10, and money is taken out of 47300. */
  function Dashboard(records: seq<Expense>, today: int): (s: Snapshot)
    ensures s.remainingTotal == 47300.0 - TotalSpent(records)
    ensures s.daysLeft == 739657 - today
    ensures today < 739657 ==> s.dailyLimit * ((739657 - today) as real) == s.remainingTotal
    ensures today >= 739657 ==> s.dailyLimit == s.remainingTotal
  {
    Compute(records, today, TotalStartBudget, EndDate)
  }

  /** An empty ledger leaves the whole budget. */
  lemma EmptyLedger(today: int, startBudget: real, endDate: int)
    ensures var s := Compute([], today, startBudget, endDate);
      s.totalSpent == 0.0 && s.remainingTotal == startBudget
  {
  }

  /** The snapshot depends only on which records exist, not on the order the
      query returns them in. */
  lemma OrderIndependent(a: seq<Expense>, b: seq<Expense>, today: int, startBudget: real, endDate: int)
    requires multiset(a) == multiset(b)
    ensures Compute(a, today, startBudget, endDate) == Compute(b, today, startBudget, endDate)
  {
    TotalSpentPermutation(a, b);
  }

  /** One more record of `e.amount` raises the total, and lowers the
      remainder, by exactly that amount. */
  lemma RecordAdded(records: seq<Expense>, e: Expense, today: int, startBudget: real, endDate: int)
    ensures var before := Compute(records, today, startBudget, endDate);
      var after := Compute(records + [e], today, startBudget, endDate);
      && after.totalSpent == before.totalSpent + e.amount
      && after.remainingTotal == before.remainingTotal - e.amount
      && after.daysLeft == before.daysLeft
  {
  }

  /** When no amount is negative, the remainder never exceeds the start. */
  lemma RemainingAtMostStart(records: seq<Expense>, today: int, startBudget: real, endDate: int)
    requires NoNegativeAmount(records)
    ensures Compute(records, today, startBudget, endDate).remainingTotal <= startBudget
  {
  }

  /** A budget of 1000 with ten days to go and nothing spent allows 100 a day. */
  lemma ScenarioFreshStart(today: int)
    ensures Compute([], today, 1000.0, today + 10) == Snapshot(1000.0, 10, 100.0, 0.0, today)
  {
  }

  /** Spending 300 on food out of that budget leaves 700, or 70 a day. */
  lemma ScenarioAfterFood(today: int)
    ensures Compute([Expense(1, 300.0, "food", today)], today, 1000.0, today + 10)
         == Snapshot(700.0, 10, 70.0, 300.0, today)
  {
    var r := [Expense(1, 300.0, "food", today)];
    assert r[..0] == [];
    assert TotalSpent(r) == 300.0;
  }

  /** On the deadline itself the whole remainder is today's allowance. */
  lemma ScenarioDeadlineToday(today: int)
    ensures Compute([Expense(1, 950.0, "rent", today)], today, 1000.0, today)
         == Snapshot(50.0, 0, 50.0, 950.0, today)
  {
    var r := [Expense(1, 950.0, "rent", today)];
    assert r[..0] == [];
    assert TotalSpent(r) == 950.0;
  }

  /** Five days past the deadline and overspent by 20, the limit is -20. */
  lemma ScenarioPastDeadline(today: int)
    ensures Compute([Expense(1, 1020.0, "rent", today)], today, 1000.0, today - 5)
         == Snapshot(-20.0, -5, -20.0, 1020.0, today)
  {
    var r := [Expense(1, 1020.0, "rent", today)];
    assert r[..0] == [];
    assert TotalSpent(r) == 1020.0;
  }
}
