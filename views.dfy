/** The request handlers of the household app, with HTTP, templates and
    messages removed: each takes the store and the calling user's id, and
    either refuses with a `Failure` (leaving the store as it was) or
    answers and updates the tables. */
module Views {
  import opened Wrappers
  import opened Models
  import opened Ledger
  import opened Forms

  // ---------------------------------------------------------------------
  // Gatekeeping

  /** The household must exist and the caller must have a membership in it;
      the answer is the caller's membership. */
  function Authorize(db: Db, caller: Id, pk: Id): (r: Result<Id, Failure>)
    ensures r.Ok? ==> pk < |db.households| && r.value < |db.memberships|
                      && db.memberships[r.value].user == caller && db.memberships[r.value].household == pk
    ensures r == Err(NotFound) <==> pk >= |db.households|
    ensures r == Err(NotMember) <==>
      pk < |db.households| &&
      forall i :: 0 <= i < |db.memberships| ==> db.memberships[i].user != caller || db.memberships[i].household != pk
    ensures r.Ok? || r == Err(NotFound) || r == Err(NotMember)
  {
    if pk >= |db.households| then Err(NotFound)
    else
      match FindMembership(db.memberships, caller, pk)
      case None => Err(NotMember)
      case Some(m) => Ok(m)
  }

  /** The caller's membership in household `h` is an admin one. */
  predicate IsAdminOf(db: Db, caller: Id, h: Id)
    ensures IsAdminOf(db, caller, h) ==>
      exists m :: 0 <= m < |db.memberships| && db.memberships[m].user == caller
                  && db.memberships[m].household == h && db.memberships[m].role == Admin
    ensures UniqueMemberships(db.memberships) &&
      (exists m :: 0 <= m < |db.memberships| && db.memberships[m].user == caller
                   && db.memberships[m].household == h && db.memberships[m].role == Admin)
      ==> IsAdminOf(db, caller, h)
  {
    match FindMembership(db.memberships, caller, h)
    case None => false
    case Some(m) => db.memberships[m].role == Admin
  }

  // ---------------------------------------------------------------------
  // dashboard

  /** `dashboard`: the household of each of the user's memberships. */
  function Dashboard(ms: seq<Membership>, u: Id): (r: seq<Id>)
    ensures forall h: nat :: h in r <==> FindMembership(ms, u, h).Some?
    decreases |ms|
  {
    if ms == [] then []
    else Dashboard(ms[..|ms| - 1], u) + (if ms[|ms| - 1].user == u then [ms[|ms| - 1].household] else [])
  }

  /** Since memberships are unique per pair, no household is listed twice. */
  lemma {:induction false} DashboardListsEachHouseholdOnce(ms: seq<Membership>, u: Id)
    requires UniqueMemberships(ms)
    ensures Distinct(Dashboard(ms, u))
    decreases |ms|
  {
    if ms != [] {
      var init := ms[..|ms| - 1];
      DashboardListsEachHouseholdOnce(init, u);
      var earlier := Dashboard(init, u);
      assert forall a :: 0 <= a < |earlier| ==> earlier[a] in earlier;
      var last := ms[|ms| - 1];
      if last.user == u {
        assert FindMembership(init, u, last.household).None?;
      }
    }
  }

  // ---------------------------------------------------------------------
  // household_detail

  datatype HouseholdPage = HouseholdPage(
    household: Id,
    expenses: seq<Id>,
    chores: seq<Id>,
    balances: seq<BalanceRow>,
    currentMembership: Id,
    myPaidTotal: real,
    myShareTotal: real,
    myBalance: real,
    myChoresPending: seq<Id>,
    myChoresCompleted: seq<Id>)

  /** The expenses of household `h`. */
  function ExpensesOf(es: seq<Expense>, h: Id): (r: seq<Id>)
    ensures forall k: nat :: k in r <==> k < |es| && es[k].household == h
    decreases |es|
  {
    if es == [] then []
    else ExpensesOf(es[..|es| - 1], h) + (if es[|es| - 1].household == h then [|es| - 1] else [])
  }

  /** The chores of household `h`. */
  function ChoresOf(cs: seq<Chore>, h: Id): (r: seq<Id>)
    ensures forall c: nat :: c in r <==> c < |cs| && cs[c].household == h
    decreases |cs|
  {
    if cs == [] then []
    else ChoresOf(cs[..|cs| - 1], h) + (if cs[|cs| - 1].household == h then [|cs| - 1] else [])
  }

  /** The chores of household `h` assigned to membership `m` with the given status. */
  function MyChores(cs: seq<Chore>, h: Id, m: Id, status: string): (r: seq<Id>)
    ensures forall c: nat :: c in r <==>
      c < |cs| && cs[c].household == h && cs[c].assignedTo == m && cs[c].status == status
    decreases |cs|
  {
    if cs == [] then []
    else
      var c := cs[|cs| - 1];
      MyChores(cs[..|cs| - 1], h, m, status)
        + (if c.household == h && c.assignedTo == m && c.status == status then [|cs| - 1] else [])
  }

  /** The first row of membership `m`, as `next(... for b in balances if
      b['membership'] == m)` finds it. */
  function OwnRow(rows: seq<BalanceRow>, m: Id): Option<BalanceRow> {
    if rows == [] then None
    else if rows[0].membership == m then Some(rows[0])
    else OwnRow(rows[1..], m)
  }

  /** The page of household `pk` as membership `me` sees it, given its balances. */
  function PageFor(db: Db, pk: Id, me: Id, balances: seq<BalanceRow>): HouseholdPage {
    var own := OwnRow(balances, me);
    var myPaid := if own.Some? then own.value.paidTotal else 0.0;
    var myShare := if own.Some? then own.value.shareTotal else 0.0;
    HouseholdPage(pk, ExpensesOf(db.expenses, pk), ChoresOf(db.chores, pk), balances, me,
                  myPaid, myShare, myPaid - myShare,
                  MyChores(db.chores, pk, me, "pending"), MyChores(db.chores, pk, me, "completed"))
  }

  /** `household_detail`: what the household page shows to `caller`. */
  function Detail(db: Db, caller: Id, pk: Id): (r: Result<HouseholdPage, Failure>)
    ensures r.Ok? <==> pk < |db.households| && FindMembership(db.memberships, caller, pk).Some?
  {
    match Authorize(db, caller, pk)
    case Err(f) => Err(f)
    case Ok(me) => Ok(PageFor(db, pk, me, Balances(db, pk)))
  }

  lemma {:induction false} OwnRowFinds(db: Db, h: Id, ms: seq<Id>, m: Id)
    requires m in ms
    ensures OwnRow(RowsFor(db, h, ms), m) == Some(RowFor(db, h, m))
  {
    if ms[0] != m {
      assert m in ms[1..] by { assert ms == [ms[0]] + ms[1..]; }
      OwnRowFinds(db, h, ms[1..], m);
    }
  }

  /** The caller's own totals on the page are those of their own row of the
      balances: what they paid, what they were charged, and the difference. */
  lemma MySummaryIsOwnRow(db: Db, caller: Id, pk: Id)
    requires Detail(db, caller, pk).Ok?
    ensures var page := Detail(db, caller, pk).value;
      && page.myPaidTotal == PaidTotal(db.expenses, pk, page.currentMembership)
      && page.myShareTotal == ShareTotal(db.shares, db.expenses, pk, page.currentMembership)
      && page.myBalance == RowFor(db, pk, page.currentMembership).balance
  {
    var me := Authorize(db, caller, pk).value;
    OwnRowFinds(db, pk, MembersOf(db.memberships, pk), me);
  }

  /** The balances shown on a household page add up to zero. */
  lemma PageBalancesSumToZero(db: Db, caller: Id, pk: Id)
    requires WellFormed(db)
    requires Detail(db, caller, pk).Ok?
    ensures Total(Detail(db, caller, pk).value.balances) == 0.0
  {
    BalancesSumToZero(db, pk);
  }

  /** The balance loop of `household_detail`: one row per membership in
      `members`, each from the totals of that membership. */
  method ComputeBalances(db: Store, pk: Id, members: seq<Id>) returns (balances: seq<BalanceRow>)
    ensures balances == RowsFor(db.Snapshot(), pk, members)
  {
    balances := [];
    for i := 0 to |members|
      invariant |balances| == i
      invariant forall j :: 0 <= j < i ==> balances[j] == RowFor(db.Snapshot(), pk, members[j])
    {
      var m := members[i];
      var paidTotal := PaidTotal(db.expenses, pk, m);
      var shareTotal := ShareTotal(db.shares, db.expenses, pk, m);
      balances := balances + [BalanceRow(m, paidTotal, shareTotal, paidTotal - shareTotal)];
    }
  }

  /** `household_detail`, computing the balances one membership at a time. */
  method HouseholdDetail(db: Store, caller: Id, pk: Id) returns (r: Result<HouseholdPage, Failure>)
    ensures r == Detail(db.Snapshot(), caller, pk)
  {
    var auth := Authorize(db.Snapshot(), caller, pk);
    if auth.Err? {
      return Err(auth.error);
    }
    var balances := ComputeBalances(db, pk, MembersOf(db.memberships, pk));
    r := Ok(PageFor(db.Snapshot(), pk, auth.value, balances));
  }

  // ---------------------------------------------------------------------
  // household_create

  /** The tables after `caller` creates a household: the household, and the
      caller as its admin with share percentage 0. */
  function WithHousehold(db: Db, caller: Id, name: string, address: string, joinCode: string): (r: Db)
    ensures r.(households := db.households, memberships := db.memberships) == db
    ensures |r.households| == |db.households| + 1 && r.households[..|db.households|] == db.households
    ensures r.households[|db.households|].createdBy == caller
    ensures |r.memberships| == |db.memberships| + 1 && r.memberships[..|db.memberships|] == db.memberships
    ensures r.memberships[|db.memberships|] == Membership(caller, |db.households|, Admin, 0.0)
    ensures WellFormed(db) && caller < |db.users| ==> WellFormed(r)
  {
    var h := |db.households|;
    db.(households := db.households + [Household(name, address, joinCode, caller)],
        memberships := db.memberships + [Membership(caller, h, Admin, 0.0)])
  }

  /** A new household has exactly one membership: its creator's, as admin. */
  lemma NewHouseholdHasOnlyItsCreator(db: Db, caller: Id, name: string, address: string, joinCode: string)
    requires forall i :: 0 <= i < |db.memberships| ==> db.memberships[i].household < |db.households|
    ensures var after := WithHousehold(db, caller, name, address, joinCode);
      var h := |db.households|;
      && MembersOf(after.memberships, h) == [|db.memberships|]
      && FindMembership(after.memberships, caller, h) == Some(|db.memberships|)
      && IsAdminOf(after, caller, h)
  {
    var after := WithHousehold(db, caller, name, address, joinCode);
    var h := |db.households|;
    assert after.memberships[..|db.memberships|] == db.memberships;
    assert MembersOf(db.memberships, h) == [];
    assert FindMembership(db.memberships, caller, h) == None;
  }

  method HouseholdCreate(db: Store, caller: Id, name: string, address: string, joinCode: string) returns (h: Id)
    requires db.Valid()
    requires caller < |db.users|
    modifies db
    ensures db.Valid()
    ensures h == |old(db.households)|
    ensures db.Snapshot() == WithHousehold(old(db.Snapshot()), caller, name, address, joinCode)
  {
    h := |db.households|;
    db.households := db.households + [Household(name, address, joinCode, caller)];
    db.memberships := db.memberships + [Membership(caller, h, Admin, 0.0)];
  }

  // ---------------------------------------------------------------------
  // add_member

  /** The checks of `add_member`, in the order the view makes them; the
      answer is the user to add. */
  function AddMemberCheck(db: Db, caller: Id, pk: Id, email: string, sharePercentage: real): (r: Result<Id, Failure>)
    ensures r.Ok? <==>
      && pk < |db.households|
      && IsAdminOf(db, caller, pk)
      && ValidSharePercentage(sharePercentage)
      && |UsersWithEmail(db.users, Lower(email))| == 1
      && FindMembership(db.memberships, UsersWithEmail(db.users, Lower(email))[0], pk).None?
    ensures r.Ok? ==> r.value < |db.users| && db.users[r.value].email == Lower(email)
    ensures r == Err(NotAdmin) <==>
      pk < |db.households| && FindMembership(db.memberships, caller, pk).Some? && !IsAdminOf(db, caller, pk)
    ensures r == Err(UserNotFound) ==>
      forall i :: 0 <= i < |db.users| ==> db.users[i].email != Lower(email)
    ensures (&& pk < |db.households| && IsAdminOf(db, caller, pk) && ValidSharePercentage(sharePercentage)
             && UsersWithEmail(db.users, Lower(email)) == [])
            ==> r == Err(UserNotFound)
    ensures (&& pk < |db.households| && IsAdminOf(db, caller, pk) && ValidSharePercentage(sharePercentage)
             && |UsersWithEmail(db.users, Lower(email))| == 1
             && FindMembership(db.memberships, UsersWithEmail(db.users, Lower(email))[0], pk).Some?)
            ==> r == Err(AlreadyMember)
    ensures r == Err(AlreadyMember) ==>
      exists i :: 0 <= i < |db.memberships| && db.memberships[i].household == pk
                  && db.memberships[i].user < |db.users| && db.users[db.memberships[i].user].email == Lower(email)
  {
    match Authorize(db, caller, pk)
    case Err(f) => Err(f)
    case Ok(me) =>
      if db.memberships[me].role != Admin then Err(NotAdmin)
      else if !ValidSharePercentage(sharePercentage) then Err(InvalidForm)
      else
        var found := UsersWithEmail(db.users, Lower(email));
        if found == [] then Err(UserNotFound)
        else if |found| > 1 then Err(MultipleUsers)
        else
          assert found[0] in found;
          match FindMembership(db.memberships, found[0], pk)
          case Some(_) => Err(AlreadyMember)
          case None => Ok(found[0])
  }

  /** The tables after membership `m` is added. */
  function WithMembership(db: Db, m: Membership): (r: Db)
    ensures r.(memberships := db.memberships) == db
    ensures |r.memberships| == |db.memberships| + 1 && r.memberships[..|db.memberships|] == db.memberships
    ensures r.memberships[|db.memberships|] == m
    ensures (&& WellFormed(db) && m.user < |db.users| && m.household < |db.households|
             && FindMembership(db.memberships, m.user, m.household).None?)
            ==> WellFormed(r)
  {
    db.(memberships := db.memberships + [m])
  }

  /** An accepted add-member request keeps the tables well formed: in
      particular it never creates a second membership for the same pair. */
  lemma AddMemberKeepsWellFormed(db: Db, caller: Id, pk: Id, email: string, sharePercentage: real)
    requires WellFormed(db)
    requires AddMemberCheck(db, caller, pk, email, sharePercentage).Ok?
    ensures WellFormed(WithMembership(db, Membership(AddMemberCheck(db, caller, pk, email, sharePercentage).value, pk, Member, sharePercentage)))
  {
  }

  /** Repeating an accepted add-member request is answered AlreadyMember. */
  lemma AddMemberTwiceIsAlreadyMember(db: Db, caller: Id, pk: Id, email: string, sharePercentage: real)
    requires AddMemberCheck(db, caller, pk, email, sharePercentage).Ok?
    ensures var u := AddMemberCheck(db, caller, pk, email, sharePercentage).value;
      var after := WithMembership(db, Membership(u, pk, Member, sharePercentage));
      AddMemberCheck(after, caller, pk, email, sharePercentage) == Err(AlreadyMember)
  {
    var u := AddMemberCheck(db, caller, pk, email, sharePercentage).value;
    var after := WithMembership(db, Membership(u, pk, Member, sharePercentage));
    assert after.memberships[..|db.memberships|] == db.memberships;
  }

  method AddMember(db: Store, caller: Id, pk: Id, email: string, sharePercentage: real) returns (r: Result<Id, Failure>)
    requires db.Valid()
    modifies db
    ensures db.Valid()
    ensures r == AddMemberCheck(old(db.Snapshot()), caller, pk, email, sharePercentage)
    ensures r.Ok? ==> db.Snapshot() == WithMembership(old(db.Snapshot()), Membership(r.value, pk, Member, sharePercentage))
    ensures r.Err? ==> db.Snapshot() == old(db.Snapshot())
  {
    r := AddMemberCheck(db.Snapshot(), caller, pk, email, sharePercentage);
    if r.Ok? {
      AddMemberKeepsWellFormed(db.Snapshot(), caller, pk, email, sharePercentage);
      db.memberships := db.memberships + [Membership(r.value, pk, Member, sharePercentage)];
    }
  }

  // ---------------------------------------------------------------------
  // expense_create

  /** One share of `perHead` for each membership in `ms`, in order. */
  function SharesFor(k: Id, ms: seq<Id>, perHead: real): (r: seq<ExpenseShare>)
    ensures |r| == |ms|
    ensures forall i :: 0 <= i < |ms| ==> r[i] == ExpenseShare(k, ms[i], perHead)
    decreases |ms|
  {
    if ms == [] then []
    else SharesFor(k, ms[..|ms| - 1], perHead) + [ExpenseShare(k, ms[|ms| - 1], perHead)]
  }

  /** The shares `expense_create` records for expense `k`: `amount / count`
      for each of the `count` memberships, none when there are no members. */
  function SplitEqually(k: Id, ms: seq<Id>, amount: real): (r: seq<ExpenseShare>)
    ensures |r| == |ms|
    ensures forall i :: 0 <= i < |ms| ==> r[i] == ExpenseShare(k, ms[i], amount / |ms| as real)
  {
    if |ms| > 0 then SharesFor(k, ms, amount / |ms| as real) else []
  }

  /** The tables after expense `e` is created and split: one share per
      membership its household has at that moment, each of `amount / count`,
      none when it has no members; nothing else changes. */
  function WithExpense(db: Db, e: Expense): (r: Db)
    ensures r.(expenses := db.expenses, shares := db.shares) == db
    ensures r.expenses == db.expenses + [e]
    ensures var ms := MembersOf(db.memberships, e.household);
      && |r.shares| == |db.shares| + |ms|
      && r.shares[..|db.shares|] == db.shares
      && (forall i :: 0 <= i < |ms| ==>
            r.shares[|db.shares| + i] == ExpenseShare(|db.expenses|, ms[i], e.amount / |ms| as real))
  {
    var k := |db.expenses|;
    db.(expenses := db.expenses + [e],
        shares := db.shares + SplitEqually(k, MembersOf(db.memberships, e.household), e.amount))
  }

  /** `n` copies of `x` added up. */
  function Repeat(x: real, n: nat): real {
    if n == 0 then 0.0 else Repeat(x, n - 1) + x
  }

  lemma {:induction false} RepeatIsProduct(x: real, n: nat)
    ensures Repeat(x, n) == n as real * x
  {
    if n > 0 {
      RepeatIsProduct(x, n - 1);
      assert n as real * x == (n - 1) as real * x + x;
    }
  }

  lemma {:induction false} SharesForTotal(k: Id, ms: seq<Id>, perHead: real)
    ensures SharesOf(SharesFor(k, ms, perHead), k) == Repeat(perHead, |ms|)
    decreases |ms|
  {
    if ms != [] {
      var init := ms[..|ms| - 1];
      SharesForTotal(k, init, perHead);
      assert SharesFor(k, ms, perHead)[..|ms| - 1] == SharesFor(k, init, perHead);
    }
  }

  /** With exact division, the shares of a split add up to the amount. */
  lemma SplitEquallyCoversAmount(k: Id, ms: seq<Id>, amount: real)
    requires |ms| > 0
    ensures SharesOf(SplitEqually(k, ms, amount), k) == amount
  {
    var perHead := amount / |ms| as real;
    SharesForTotal(k, ms, perHead);
    RepeatIsProduct(perHead, |ms|);
  }

  /** A created expense keeps the tables well formed: its payer is a member,
      and its shares are charged to members and add up to its amount. */
  lemma ExpenseCreateKeepsWellFormed(db: Db, e: Expense)
    requires WellFormed(db)
    requires e.household < |db.households| && IsMemberOf(db, e.paidBy, e.household)
    ensures WellFormed(WithExpense(db, e))
  {
    ExpenseCreateKeepsReferences(db, e);
    assert e.paidBy in MembersOf(db.memberships, e.household);
    ExpenseCreateKeepsCover(db, e);
  }

  lemma ExpenseCreateKeepsReferences(db: Db, e: Expense)
    requires ExpensesWellFormed(db)
    requires forall j :: 0 <= j < |db.shares| ==>
      db.shares[j].expense < |db.expenses| &&
      IsMemberOf(db, db.shares[j].member, db.expenses[db.shares[j].expense].household)
    requires e.household < |db.households| && IsMemberOf(db, e.paidBy, e.household)
    ensures var after := WithExpense(db, e);
      ExpensesWellFormed(after) &&
      forall j :: 0 <= j < |after.shares| ==>
        after.shares[j].expense < |after.expenses| &&
        IsMemberOf(after, after.shares[j].member, after.expenses[after.shares[j].expense].household)
  {
    var members := MembersOf(db.memberships, e.household);
    var after := WithExpense(db, e);
    forall j | 0 <= j < |after.shares|
      ensures after.shares[j].expense < |after.expenses|
      ensures IsMemberOf(after, after.shares[j].member, after.expenses[after.shares[j].expense].household)
    {
      if j < |db.shares| {
        assert after.shares[j] == after.shares[..|db.shares|][j] == db.shares[j];
        assert after.expenses[db.shares[j].expense] == db.expenses[db.shares[j].expense];
      } else {
        var i := j - |db.shares|;
        assert after.shares[j] == ExpenseShare(|db.expenses|, members[i], e.amount / |members| as real);
        assert members[i] in members;
      }
    }
  }

  /** The shares of a split are all for expense `k`, so they add nothing to
      any other expense. */
  lemma {:induction false} SharesForOtherExpense(k: Id, ms: seq<Id>, perHead: real, j: Id)
    requires j != k
    ensures SharesOf(SharesFor(k, ms, perHead), j) == 0.0
  {
    var shares := SharesFor(k, ms, perHead);
    assert forall i :: 0 <= i < |shares| ==> shares[i].expense != j;
  }

  /** After the split, expense `j` is still covered by its shares. */
  lemma SplitKeepsCoverAt(shares: seq<ExpenseShare>, expenses: seq<Expense>, e: Expense, members: seq<Id>, j: Id)
    requires forall i :: 0 <= i < |shares| ==> shares[i].expense < |expenses|
    requires forall i :: 0 <= i < |expenses| ==> SharesOf(shares, i) == expenses[i].amount
    requires members != []
    requires j <= |expenses|
    ensures SharesOf(shares + SplitEqually(|expenses|, members, e.amount), j) == (expenses + [e])[j].amount
  {
    var k := |expenses|;
    var perHead := e.amount / |members| as real;
    var split := SplitEqually(k, members, e.amount);
    SharesOfAppend(shares, split, j);
    if j < k {
      SharesForOtherExpense(k, members, perHead, j);
    } else {
      SplitEquallyCoversAmount(k, members, e.amount);
      assert SharesOf(shares, j) == 0.0;
    }
  }

  lemma ExpenseCreateKeepsCover(db: Db, e: Expense)
    requires forall j :: 0 <= j < |db.shares| ==> db.shares[j].expense < |db.expenses|
    requires forall j :: 0 <= j < |db.expenses| ==> SharesOf(db.shares, j) == db.expenses[j].amount
    requires MembersOf(db.memberships, e.household) != []
    ensures var after := WithExpense(db, e);
      forall j :: 0 <= j < |after.expenses| ==> SharesOf(after.shares, j) == after.expenses[j].amount
  {
    var members := MembersOf(db.memberships, e.household);
    forall j | 0 <= j <= |db.expenses|
      ensures SharesOf(db.shares + SplitEqually(|db.expenses|, members, e.amount), j) == (db.expenses + [e])[j].amount
    {
      SplitKeepsCoverAt(db.shares, db.expenses, e, members, j);
    }
  }

  /** Creating the shares, one membership at a time. */
  method CreateShares(db: Store, k: Id, members: seq<Id>, amount: real)
    modifies db`shares
    ensures db.shares == old(db.shares) + SplitEqually(k, members, amount)
  {
    var count := |members|;
    if count > 0 {
      var perHead := amount / count as real;
      for i := 0 to count
        invariant db.shares == old(db.shares) + SharesFor(k, members[..i], perHead)
      {
        assert members[..i + 1][..i] == members[..i];
        db.shares := db.shares + [ExpenseShare(k, members[i], perHead)];
      }
      assert members[..count] == members;
    }
  }

  method ExpenseCreate(db: Store, caller: Id, pk: Id, title: string, amount: real, category: string, date: string)
    returns (r: Result<Id, Failure>)
    requires db.Valid()
    modifies db
    ensures db.Valid()
    ensures var auth := Authorize(old(db.Snapshot()), caller, pk);
      && (auth.Err? ==> r == Err(auth.error) && db.Snapshot() == old(db.Snapshot()))
      && (auth.Ok? ==>
            && r == Ok(|old(db.expenses)|)
            && db.Snapshot() == WithExpense(old(db.Snapshot()), Expense(pk, auth.value, title, amount, category, date)))
  {
    var auth := Authorize(db.Snapshot(), caller, pk);
    if auth.Err? {
      return Err(auth.error);
    }
    var e := Expense(pk, auth.value, title, amount, category, date);
    ghost var before := db.Snapshot();
    ExpenseCreateKeepsWellFormed(before, e);
    var k := |db.expenses|;
    db.expenses := db.expenses + [e];
    var members := MembersOf(db.memberships, pk);
    CreateShares(db, k, members, amount);
    assert db.Snapshot() == WithExpense(before, e);
    r := Ok(k);
  }

  // ---------------------------------------------------------------------
  // chore_create

  /** The tables after chore `c` is created. */
  function WithChore(db: Db, c: Chore): (r: Db)
    ensures r.(chores := db.chores) == db
    ensures r.chores == db.chores + [c]
    ensures (WellFormed(db) && c.household < |db.households| && IsMemberOf(db, c.assignedTo, c.household))
            ==> WellFormed(r)
  {
    db.(chores := db.chores + [c])
  }

  method ChoreCreate(db: Store, caller: Id, pk: Id, title: string, assignedTo: Id,
                     dueDate: string, frequency: string, status: string)
    returns (r: Result<Id, Failure>)
    requires db.Valid()
    modifies db
    ensures db.Valid()
    ensures var auth := Authorize(old(db.Snapshot()), caller, pk);
      && (auth.Err? ==> r == Err(auth.error))
      && (auth.Ok? && !IsMemberOf(old(db.Snapshot()), assignedTo, pk) ==> r == Err(InvalidForm))
      && (auth.Ok? && IsMemberOf(old(db.Snapshot()), assignedTo, pk) ==> r == Ok(|old(db.chores)|))
    ensures r.Ok? ==> db.Snapshot() == WithChore(old(db.Snapshot()), Chore(pk, title, assignedTo, dueDate, frequency, status))
    ensures r.Err? ==> db.Snapshot() == old(db.Snapshot())
  {
    var auth := Authorize(db.Snapshot(), caller, pk);
    if auth.Err? {
      return Err(auth.error);
    }
    var form := new ChoreForm(db.memberships, Some(pk));
    if !form.Accepts(assignedTo) {
      return Err(InvalidForm);
    }
    db.chores := db.chores + [Chore(pk, title, assignedTo, dueDate, frequency, status)];
    r := Ok(|db.chores| - 1);
  }

  // ---------------------------------------------------------------------
  // chore_toggle_status

  /** The status a chore gets when toggled. */
  function Toggled(status: string): (r: string)
    ensures r != status
    ensures r == "completed" <==> status == "pending"
    ensures r == "pending" || r == "completed"
  {
    if status == "pending" then "completed" else "pending"
  }

  /** Toggling twice restores exactly the statuses 'pending' and 'completed'. */
  lemma ToggleTwiceRestores(status: string)
    ensures Toggled(Toggled(status)) == status <==> status == "pending" || status == "completed"
  {
  }

  /** The checks of `chore_toggle_status`; the answer is the chore's household. */
  function ToggleCheck(db: Db, caller: Id, pk: Id): (r: Result<Id, Failure>)
    ensures r == Err(NotFound) <==> pk >= |db.chores|
    ensures r.Ok? ==> pk < |db.chores| && r.value == db.chores[pk].household
                      && FindMembership(db.memberships, caller, r.value).Some?
    ensures r == Err(NotMember) <==>
      pk < |db.chores| && FindMembership(db.memberships, caller, db.chores[pk].household).None?
    ensures r.Ok? || r == Err(NotFound) || r == Err(NotMember)
  {
    if pk >= |db.chores| then Err(NotFound)
    else if FindMembership(db.memberships, caller, db.chores[pk].household).None? then Err(NotMember)
    else Ok(db.chores[pk].household)
  }

  /** The tables after chore `c`'s status is toggled. */
  function WithToggled(db: Db, c: Id): (r: Db)
    requires c < |db.chores|
    ensures r.(chores := db.chores) == db
    ensures |r.chores| == |db.chores|
    ensures forall i :: 0 <= i < |db.chores| && i != c ==> r.chores[i] == db.chores[i]
    ensures r.chores[c].status == Toggled(db.chores[c].status)
    ensures r.chores[c].(status := db.chores[c].status) == db.chores[c]
  {
    db.(chores := db.chores[c := db.chores[c].(status := Toggled(db.chores[c].status))])
  }

  /** Toggling a 'pending' or 'completed' chore twice restores the tables. */
  lemma ToggleTwiceRestoresTables(db: Db, c: Id)
    requires c < |db.chores|
    requires db.chores[c].status == "pending" || db.chores[c].status == "completed"
    ensures WithToggled(WithToggled(db, c), c) == db
  {
    ToggleTwiceRestores(db.chores[c].status);
    assert WithToggled(WithToggled(db, c), c).chores == db.chores;
  }

  method ChoreToggleStatus(db: Store, caller: Id, pk: Id) returns (r: Result<Id, Failure>)
    requires db.Valid()
    modifies db
    ensures db.Valid()
    ensures r == ToggleCheck(old(db.Snapshot()), caller, pk)
    ensures r.Ok? ==> db.Snapshot() == WithToggled(old(db.Snapshot()), pk)
    ensures r.Err? ==> db.Snapshot() == old(db.Snapshot())
  {
    r := ToggleCheck(db.Snapshot(), caller, pk);
    if r.Err? {
      return;
    }
    var chore := db.chores[pk];
    db.chores := db.chores[pk := chore.(status := Toggled(chore.status))];
  }
}
