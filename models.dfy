/** The tables of the household app (users, households, memberships,
    expenses, expense shares and chores), the lookups the views make on
    them, the integrity constraints every reachable state keeps, and the
    store object that holds the tables. */
module Models {
  import opened Wrappers

  /** A row's id is its position in its table; rows are never deleted. */
  type Id = nat

  datatype Role = Admin | Member

  datatype User = User(username: string, email: string, firstName: string, lastName: string, password: string)

  datatype Household = Household(name: string, address: string, joinCode: string, createdBy: Id)

  datatype Membership = Membership(user: Id, household: Id, role: Role, sharePercentage: real)

  /** `amount` is an exact number; `date` is kept as the text the form gave. */
  datatype Expense = Expense(household: Id, paidBy: Id, title: string, amount: real, category: string, date: string)

  datatype ExpenseShare = ExpenseShare(expense: Id, member: Id, shareAmount: real)

  datatype Chore = Chore(household: Id, title: string, assignedTo: Id, dueDate: string, frequency: string, status: string)

  datatype Db = Db(users: seq<User>, households: seq<Household>, memberships: seq<Membership>,
                   expenses: seq<Expense>, shares: seq<ExpenseShare>, chores: seq<Chore>)

  /** Why a request is refused. */
  datatype Failure =
    | NotFound       // no household or chore with that id
    | NotMember      // the caller has no membership in the household
    | NotAdmin       // the caller's membership is not an admin one
    | InvalidForm    // the submitted form does not validate
    | UserNotFound   // no registered user has that email
    | MultipleUsers  // more than one registered user has that email
    | AlreadyMember  // the user already has a membership in the household

  /** The membership linking user `u` to household `h`, if there is one
      (`Membership.objects.get(user=u, household=h)`). */
  function FindMembership(ms: seq<Membership>, u: Id, h: Id): (r: Option<Id>)
    ensures r.Some? ==> r.value < |ms| && ms[r.value].user == u && ms[r.value].household == h
    ensures r.None? <==> forall i :: 0 <= i < |ms| ==> ms[i].user != u || ms[i].household != h
    decreases |ms|
  {
    if ms == [] then None
    else
      var earlier := FindMembership(ms[..|ms| - 1], u, h);
      if earlier.Some? then earlier
      else if ms[|ms| - 1].user == u && ms[|ms| - 1].household == h then Some(|ms| - 1)
      else None
  }

  /** The memberships of household `h`, in table order
      (`Membership.objects.filter(household=h)`). */
  function MembersOf(ms: seq<Membership>, h: Id): (r: seq<Id>)
    ensures forall i: nat :: i in r <==> i < |ms| && ms[i].household == h
    ensures r == [] <==> forall i :: 0 <= i < |ms| ==> ms[i].household != h
    ensures Increasing(r)
    decreases |ms|
  {
    if ms == [] then []
    else
      var last := |ms| - 1;
      var earlier := MembersOf(ms[..last], h);
      assert |ms[..last]| == last;
      assert forall a :: 0 <= a < |earlier| ==> earlier[a] in earlier;
      assert forall a :: 0 <= a < |earlier| ==> earlier[a] < last;
      if ms[last].household == h then earlier + [last] else earlier
  }

  /** The users whose stored email is exactly `email`
      (`User.objects.filter(email=email)`). */
  function UsersWithEmail(users: seq<User>, email: string): (r: seq<Id>)
    ensures forall i: nat :: i in r <==> i < |users| && users[i].email == email
    ensures r == [] <==> forall i :: 0 <= i < |users| ==> users[i].email != email
    ensures Increasing(r)
    decreases |users|
  {
    if users == [] then []
    else
      var last := |users| - 1;
      var earlier := UsersWithEmail(users[..last], email);
      assert |users[..last]| == last;
      assert forall a :: 0 <= a < |earlier| ==> earlier[a] in earlier;
      assert forall a :: 0 <= a < |earlier| ==> earlier[a] < last;
      if users[last].email == email then earlier + [last] else earlier
  }

  /** The sum of the share amounts recorded for expense `k`. */
  function SharesOf(ss: seq<ExpenseShare>, k: Id): (r: real)
    ensures (forall j :: 0 <= j < |ss| ==> ss[j].expense != k) ==> r == 0.0
    decreases |ss|
  {
    if ss == [] then 0.0
    else SharesOf(ss[..|ss| - 1], k) + (if ss[|ss| - 1].expense == k then ss[|ss| - 1].shareAmount else 0.0)
  }

  ghost predicate Increasing(s: seq<Id>) {
    forall a, b :: 0 <= a < b < |s| ==> s[a] < s[b]
  }

  ghost predicate Distinct(s: seq<Id>) {
    forall a, b :: 0 <= a < b < |s| ==> s[a] != s[b]
  }

  /** Membership `m` exists and belongs to household `h`. */
  ghost predicate IsMemberOf(db: Db, m: Id, h: Id) {
    m < |db.memberships| && db.memberships[m].household == h
  }

  /** At most one membership per (user, household) pair. */
  ghost predicate UniqueMemberships(ms: seq<Membership>) {
    forall i, j :: 0 <= i < j < |ms| ==> ms[i].user != ms[j].user || ms[i].household != ms[j].household
  }

  ghost predicate HouseholdsWellFormed(db: Db) {
    forall i :: 0 <= i < |db.households| ==> db.households[i].createdBy < |db.users|
  }

  ghost predicate MembershipsWellFormed(db: Db) {
    && (forall i :: 0 <= i < |db.memberships| ==>
          db.memberships[i].user < |db.users| && db.memberships[i].household < |db.households|)
    && UniqueMemberships(db.memberships)
  }

  /** Every expense belongs to a household and was paid by a membership of it. */
  ghost predicate ExpensesWellFormed(db: Db) {
    forall k :: 0 <= k < |db.expenses| ==>
      db.expenses[k].household < |db.households| &&
      IsMemberOf(db, db.expenses[k].paidBy, db.expenses[k].household)
  }

  /** Every share is charged to a membership of its expense's household, and
      the shares of each expense add up to the expense's amount. */
  ghost predicate SharesWellFormed(db: Db) {
    && (forall j :: 0 <= j < |db.shares| ==>
          db.shares[j].expense < |db.expenses| &&
          IsMemberOf(db, db.shares[j].member, db.expenses[db.shares[j].expense].household))
    && (forall k :: 0 <= k < |db.expenses| ==> SharesOf(db.shares, k) == db.expenses[k].amount)
  }

  /** Every chore belongs to a household and is assigned to a membership of it. */
  ghost predicate ChoresWellFormed(db: Db) {
    forall c :: 0 <= c < |db.chores| ==>
      db.chores[c].household < |db.households| &&
      IsMemberOf(db, db.chores[c].assignedTo, db.chores[c].household)
  }

  ghost predicate WellFormed(db: Db) {
    && HouseholdsWellFormed(db)
    && MembershipsWellFormed(db)
    && ExpensesWellFormed(db)
    && SharesWellFormed(db)
    && ChoresWellFormed(db)
  }

  /** The database: one table per entity. */
  class Store {
    var users: seq<User>
    var households: seq<Household>
    var memberships: seq<Membership>
    var expenses: seq<Expense>
    var shares: seq<ExpenseShare>
    var chores: seq<Chore>

    function Snapshot(): Db
      reads this
    {
      Db(users, households, memberships, expenses, shares, chores)
    }

    ghost predicate Valid()
      reads this
    {
      WellFormed(Snapshot())
    }

    constructor ()
      ensures Valid()
      ensures Snapshot() == Db([], [], [], [], [], [])
    {
      users, households, memberships := [], [], [];
      expenses, shares, chores := [], [], [];
    }
  }
}
