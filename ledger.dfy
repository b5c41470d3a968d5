/** Balance aggregation: what each membership of a household paid, what it
    was charged, and the net balance; and the proof that, because every
    expense is paid by a member of its household and split in full among
    members of that household, the balances of a household add up to zero. */
module Ledger {
  import opened Models

  /** One entry of the `balances` list that the household page shows. */
  datatype BalanceRow = BalanceRow(membership: Id, paidTotal: real, shareTotal: real, balance: real)

  /** Sum of the amounts of the expenses of household `h` paid by membership
      `m`; 0 when there are none. */
  function PaidTotal(es: seq<Expense>, h: Id, m: Id): (r: real)
    ensures (forall k :: 0 <= k < |es| ==> es[k].household != h || es[k].paidBy != m) ==> r == 0.0
    decreases |es|
  {
    if es == [] then 0.0
    else
      var e := es[|es| - 1];
      PaidTotal(es[..|es| - 1], h, m) + (if e.household == h && e.paidBy == m then e.amount else 0.0)
  }

  /** The share `s` belongs to an expense of household `h`. */
  predicate ShareIn(es: seq<Expense>, s: ExpenseShare, h: Id) {
    s.expense < |es| && es[s.expense].household == h
  }

  /** Sum of the shares charged to membership `m` on expenses of household
      `h`; 0 when there are none. */
  function ShareTotal(ss: seq<ExpenseShare>, es: seq<Expense>, h: Id, m: Id): (r: real)
    ensures (forall j :: 0 <= j < |ss| ==> ss[j].member != m || !ShareIn(es, ss[j], h)) ==> r == 0.0
    decreases |ss|
  {
    if ss == [] then 0.0
    else
      var s := ss[|ss| - 1];
      ShareTotal(ss[..|ss| - 1], es, h, m) + (if s.member == m && ShareIn(es, s, h) then s.shareAmount else 0.0)
  }

  function RowFor(db: Db, h: Id, m: Id): BalanceRow {
    var paid := PaidTotal(db.expenses, h, m);
    var share := ShareTotal(db.shares, db.expenses, h, m);
    BalanceRow(m, paid, share, paid - share)
  }

  /** One row per membership in `ms`, in the same order. */
  function RowsFor(db: Db, h: Id, ms: seq<Id>): (rows: seq<BalanceRow>)
    ensures |rows| == |ms|
    ensures forall i :: 0 <= i < |ms| ==> rows[i] == RowFor(db, h, ms[i])
  {
    if ms == [] then [] else [RowFor(db, h, ms[0])] + RowsFor(db, h, ms[1..])
  }

  /** The `balances` list of the household page: one row per membership of
      `h`, in table order, whose balance is what it paid minus what it was
      charged. */
  function Balances(db: Db, h: Id): (rows: seq<BalanceRow>)
    ensures |rows| == |MembersOf(db.memberships, h)|
    ensures forall i :: 0 <= i < |rows| ==>
      && rows[i].membership == MembersOf(db.memberships, h)[i]
      && rows[i].paidTotal == PaidTotal(db.expenses, h, rows[i].membership)
      && rows[i].shareTotal == ShareTotal(db.shares, db.expenses, h, rows[i].membership)
      && rows[i].balance == rows[i].paidTotal - rows[i].shareTotal
  {
    RowsFor(db, h, MembersOf(db.memberships, h))
  }

  function Total(rows: seq<BalanceRow>): real {
    if rows == [] then 0.0 else rows[0].balance + Total(rows[1..])
  }

  /** Everything spent on household `h`. */
  function Spent(es: seq<Expense>, h: Id): real
    decreases |es|
  {
    if es == [] then 0.0
    else Spent(es[..|es| - 1], h) + (if es[|es| - 1].household == h then es[|es| - 1].amount else 0.0)
  }

  /** Everything charged as shares on expenses of household `h`. */
  function Charged(ss: seq<ExpenseShare>, es: seq<Expense>, h: Id): real
    decreases |ss|
  {
    if ss == [] then 0.0
    else Charged(ss[..|ss| - 1], es, h) + (if ShareIn(es, ss[|ss| - 1], h) then ss[|ss| - 1].shareAmount else 0.0)
  }

  function SumPaid(es: seq<Expense>, h: Id, ms: seq<Id>): real {
    if ms == [] then 0.0 else PaidTotal(es, h, ms[0]) + SumPaid(es, h, ms[1..])
  }

  function SumShare(ss: seq<ExpenseShare>, es: seq<Expense>, h: Id, ms: seq<Id>): real {
    if ms == [] then 0.0 else ShareTotal(ss, es, h, ms[0]) + SumShare(ss, es, h, ms[1..])
  }

  /** Shares of the expenses before index `n` of household `h`, grouped by expense. */
  function ByExpense(ss: seq<ExpenseShare>, es: seq<Expense>, h: Id, n: nat): real
    requires n <= |es|
  {
    if n == 0 then 0.0
    else ByExpense(ss, es, h, n - 1) + (if es[n - 1].household == h then SharesOf(ss, n - 1) else 0.0)
  }

  // ---------------------------------------------------------------------
  // Lemmas about the sums

  lemma SharesOfAppend(a: seq<ExpenseShare>, b: seq<ExpenseShare>, k: Id)
    ensures SharesOf(a + b, k) == SharesOf(a, k) + SharesOf(b, k)
    decreases |b|
  {
    if b == [] {
      assert a + b == a;
    } else {
      assert (a + b)[..|a + b| - 1] == a + b[..|b| - 1];
      SharesOfAppend(a, b[..|b| - 1], k);
    }
  }

  lemma {:induction false} DistinctTail(ms: seq<Id>)
    requires Distinct(ms) && ms != []
    ensures Distinct(ms[1..]) && ms[0] !in ms[1..]
  {
  }

  lemma {:induction false} SumPaidNil(h: Id, ms: seq<Id>)
    ensures SumPaid([], h, ms) == 0.0
  {
    if ms != [] { SumPaidNil(h, ms[1..]); }
  }

  lemma {:induction false} SumShareNil(es: seq<Expense>, h: Id, ms: seq<Id>)
    ensures SumShare([], es, h, ms) == 0.0
  {
    if ms != [] { SumShareNil(es, h, ms[1..]); }
  }

  /** Adding one expense adds its amount to the sum over `ms` exactly when
      its payer is one of `ms`. */
  lemma {:induction false} SumPaidSnoc(es: seq<Expense>, e: Expense, h: Id, ms: seq<Id>)
    requires Distinct(ms)
    ensures SumPaid(es + [e], h, ms) == SumPaid(es, h, ms) + (if e.household == h && e.paidBy in ms then e.amount else 0.0)
  {
    if ms != [] {
      assert (es + [e])[..|es|] == es;
      DistinctTail(ms);
      SumPaidSnoc(es, e, h, ms[1..]);
      assert e.paidBy in ms <==> e.paidBy == ms[0] || e.paidBy in ms[1..] by {
        assert ms == [ms[0]] + ms[1..];
      }
    }
  }

  lemma {:induction false} SumShareSnoc(ss: seq<ExpenseShare>, s: ExpenseShare, es: seq<Expense>, h: Id, ms: seq<Id>)
    requires Distinct(ms)
    ensures SumShare(ss + [s], es, h, ms) == SumShare(ss, es, h, ms) + (if ShareIn(es, s, h) && s.member in ms then s.shareAmount else 0.0)
  {
    if ms != [] {
      assert (ss + [s])[..|ss|] == ss;
      DistinctTail(ms);
      SumShareSnoc(ss, s, es, h, ms[1..]);
      assert s.member in ms <==> s.member == ms[0] || s.member in ms[1..] by {
        assert ms == [ms[0]] + ms[1..];
      }
    }
  }

  /** What the memberships `ms` paid, together, is everything spent on the
      household, when every payer is one of them. */
  lemma {:induction false} SumPaidIsSpent(es: seq<Expense>, h: Id, ms: seq<Id>)
    requires Distinct(ms)
    requires forall k :: 0 <= k < |es| && es[k].household == h ==> es[k].paidBy in ms
    ensures SumPaid(es, h, ms) == Spent(es, h)
    decreases |es|
  {
    if es == [] {
      SumPaidNil(h, ms);
    } else {
      var init := es[..|es| - 1];
      assert es == init + [es[|es| - 1]];
      SumPaidIsSpent(init, h, ms);
      SumPaidSnoc(init, es[|es| - 1], h, ms);
    }
  }

  /** What the memberships `ms` were charged, together, is everything charged
      on the household, when every charged member is one of them. */
  lemma {:induction false} SumShareIsCharged(ss: seq<ExpenseShare>, es: seq<Expense>, h: Id, ms: seq<Id>)
    requires Distinct(ms)
    requires forall j :: 0 <= j < |ss| && ShareIn(es, ss[j], h) ==> ss[j].member in ms
    ensures SumShare(ss, es, h, ms) == Charged(ss, es, h)
    decreases |ss|
  {
    if ss == [] {
      SumShareNil(es, h, ms);
    } else {
      var init := ss[..|ss| - 1];
      assert ss == init + [ss[|ss| - 1]];
      SumShareIsCharged(init, es, h, ms);
      SumShareSnoc(init, ss[|ss| - 1], es, h, ms);
    }
  }

  lemma {:induction false} ByExpenseNil(es: seq<Expense>, h: Id, n: nat)
    requires n <= |es|
    ensures ByExpense([], es, h, n) == 0.0
  {
    if n > 0 { ByExpenseNil(es, h, n - 1); }
  }

  lemma {:induction false} ByExpenseSnoc(ss: seq<ExpenseShare>, s: ExpenseShare, es: seq<Expense>, h: Id, n: nat)
    requires n <= |es|
    ensures ByExpense(ss + [s], es, h, n)
         == ByExpense(ss, es, h, n) + (if s.expense < n && es[s.expense].household == h then s.shareAmount else 0.0)
  {
    if n > 0 {
      assert (ss + [s])[..|ss|] == ss;
      ByExpenseSnoc(ss, s, es, h, n - 1);
    }
  }

  lemma {:induction false} ChargedByExpense(ss: seq<ExpenseShare>, es: seq<Expense>, h: Id)
    ensures Charged(ss, es, h) == ByExpense(ss, es, h, |es|)
    decreases |ss|
  {
    if ss == [] {
      ByExpenseNil(es, h, |es|);
    } else {
      var init := ss[..|ss| - 1];
      assert ss == init + [ss[|ss| - 1]];
      ChargedByExpense(init, es, h);
      ByExpenseSnoc(init, ss[|ss| - 1], es, h, |es|);
    }
  }

  lemma {:induction false} ByExpenseIsSpent(ss: seq<ExpenseShare>, es: seq<Expense>, h: Id, n: nat)
    requires n <= |es|
    requires forall k :: 0 <= k < |es| ==> SharesOf(ss, k) == es[k].amount
    ensures ByExpense(ss, es, h, n) == Spent(es[..n], h)
  {
    if n > 0 {
      assert es[..n][..n - 1] == es[..n - 1];
      ByExpenseIsSpent(ss, es, h, n - 1);
    }
  }

  lemma {:induction false} TotalOfRows(db: Db, h: Id, ms: seq<Id>)
    ensures Total(RowsFor(db, h, ms))
         == SumPaid(db.expenses, h, ms) - SumShare(db.shares, db.expenses, h, ms)
  {
    if ms != [] {
      TotalOfRows(db, h, ms[1..]);
    }
  }

  lemma IncreasingIsDistinct(s: seq<Id>)
    requires Increasing(s)
    ensures Distinct(s)
  {
  }

  /** With exact division, the balances of the memberships of a household add
      up to zero: what the payers are owed is exactly what the others owe. */
  lemma BalancesSumToZero(db: Db, h: Id)
    requires WellFormed(db)
    ensures Total(Balances(db, h)) == 0.0
  {
    var ms := MembersOf(db.memberships, h);
    IncreasingIsDistinct(ms);
    TotalOfRows(db, h, ms);
    SumPaidIsSpent(db.expenses, h, ms);
    SumShareIsCharged(db.shares, db.expenses, h, ms);
    ChargedByExpense(db.shares, db.expenses, h);
    ByExpenseIsSpent(db.shares, db.expenses, h, |db.expenses|);
    assert db.expenses[..|db.expenses|] == db.expenses;
  }
}
