# Roommate Manager household core, in Dafny

This project models the core of a Django household-sharing app. Users
belong to households through memberships. A membership is either an admin
or an ordinary member. Members record shared expenses, and each expense
is split equally among the household's members at the moment it is
created. The household page shows each membership's balance: what it paid
minus what it was charged. Members also create chores and toggle them
between `pending` and `completed`. Registration lower-cases emails, keeps
them unique and checks that the two passwords match.

The model is a small state machine over six tables: users, households,
memberships, expenses, expense shares and chores.

- `wrappers.dfy`: `Option` and `Result`.
- `models.dfy` (module `Models`):
  - the row types and the `Failure` reasons for a refused request;
  - the lookups the views make (`FindMembership`, `MembersOf`, `UsersWithEmail`);
  - the integrity invariant `WellFormed`. It holds references valid, keeps one membership per (user, household), makes every expense paid by a member of its household, and makes every expense's shares add up to its amount;
  - the `Store` class that holds the tables as `seq` fields. A row's id is its index.
- `ledger.dfy` (module `Ledger`):
  - the balance aggregation of `household_detail`;
  - the theorem that, with exact division, a household's balances add up to zero.
- `forms.dfy` (module `Forms`):
  - `RegisterForm` (`clean_email`, `clean`, `save`);
  - the `share_percentage` rule of `AddMemberForm`;
  - `ChoreForm` and its assignee choices.
- `views.dfy` (module `Views`): one member per view.
  - Read-only views are functions: `Dashboard` and `Detail`.
  - `HouseholdDetail` computes the balances with a loop, as the view does, and is proved equal to `Detail`.
  - State-changing views are methods on the `Store`: `HouseholdCreate`, `AddMember`, `ExpenseCreate`, `ChoreCreate` and `ChoreToggleStatus`. Each ties the new tables to a function of the old ones (`WithHousehold`, `WithMembership`, `WithExpense`, `WithChore`, `WithToggled`). Each keeps `WellFormed`, and leaves the tables untouched when it refuses.

Amounts are exact rational numbers (`real`). The zero-sum and "shares
cover the amount" results hold for exact division only. The app divides
Python `Decimal` values, which round.

## Model

| member | source | states |
|---|---|---|
| Models.FindMembership | core/views.py:43 | finds the membership of user `u` in household `h` exactly when one exists; the index found has that user and household |
| Models.MembersOf | core/views.py:49 | the memberships of a household are exactly the rows with that household, in increasing (table) order, and empty exactly when there are none |
| Models.UsersWithEmail | core/views.py:110 | the users found by an email are exactly those whose stored email equals it, in table order |
| Ledger.PaidTotal | core/views.py:52-54 | what a membership paid for a household; 0 when it paid for no expense there |
| Ledger.ShareTotal | core/views.py:56-58 | what a membership was charged on the household's expenses; 0 when it has no share there |
| Ledger.Balances | core/views.py:49-65 | one row per membership of the household, in order; each row holds that membership's paid total and share total, and its balance is paid minus share |
| Ledger.BalancesSumToZero | core/views.py:51-65 | in a well-formed store, the balances of any household add up to exactly zero |
| Forms.Lower | core/forms.py:66 | lower-casing keeps the length, maps each character, and leaves no upper-case letter |
| Forms.CleanEmail | core/forms.py:65-69 | accepts exactly when no registered user has the lower-cased email; the cleaned value is the lower-cased email; the refusal carries "This email is already registered." |
| Forms.RegisteredEmailStaysUnique | core/forms.py:65-87 | saving a user whose email `clean_email` accepted keeps all users' emails distinct |
| Forms.UniqueEmailsFindAtMostOne | core/views.py:109-113 | while emails are distinct, a lookup by email finds at most one user |
| Forms.RegisterForm.AddError | core/forms.py:76 | appends the message to the field's errors and drops the field from the cleaned data |
| Forms.RegisterForm.Clean | core/forms.py:71-77 | records "Passwords do not match." on password2 exactly when both passwords are given and differ; otherwise nothing changes |
| Forms.RegisterForm.Save | core/forms.py:79-87 | username and email are both the lower-cased email; names and password come from the form; the user is appended to the store only when `commit` holds; the store stays well formed |
| Forms.AcceptedPercentageIsHundredths | core/forms.py:96-101 | an accepted share percentage is a whole number of hundredths between 0 and 100 |
| Forms.HundredthsAreAccepted | core/forms.py:96-101 | every whole number of hundredths from 0 to 100 is accepted |
| Forms.AssigneeChoices | core/forms.py:32-40 | with a household, the choices are exactly its memberships; without one, every membership |
| Forms.ChoreForm.constructor | core/forms.py:32-40 | the form's assignee choices are those of the given household |
| Forms.ChoreForm.Accepts | core/forms.py:37-40 | while the choices are those the constructor set, an assignee is accepted exactly when it is a membership of the form's household (any membership when no household is given) |
| Views.Authorize | core/views.py:40-43 | NotFound exactly when the household does not exist; NotMember exactly when it exists and the caller has no membership in it; otherwise the caller's membership of it |
| Views.IsAdminOf | core/views.py:95-98 | holding means the caller has an admin membership in the household; with unique memberships, an admin membership makes it hold |
| Views.Dashboard | core/views.py:23-33 | a household is listed exactly when the user has a membership in it |
| Views.DashboardListsEachHouseholdOnce | core/views.py:26-27 | with one membership per pair, no household is listed twice |
| Views.ExpensesOf | core/views.py:45 | exactly the expenses of the household |
| Views.ChoresOf | core/views.py:46 | exactly the chores of the household |
| Views.MyChores | core/views.py:72-74 | exactly the household's chores assigned to the membership with the given status |
| Views.Detail | core/views.py:36-88 | the page is shown exactly when the household exists and the caller is a member of it |
| Views.MySummaryIsOwnRow | core/views.py:67-70 | the caller's paid total, share total and balance on the page are those of their own membership |
| Views.PageBalancesSumToZero | core/views.py:49-65 | the balances shown on a household page add up to zero |
| Views.ComputeBalances | core/views.py:49-65 | the balance loop produces one row per membership, each from that membership's totals |
| Views.HouseholdDetail | core/views.py:36-88 | the view's answer equals `Detail` on the current tables |
| Views.WithHousehold | core/views.py:143-153 | appends the household, created by the caller, and the caller's admin membership of it with share 0; nothing else changes; a well-formed store stays well formed |
| Views.NewHouseholdHasOnlyItsCreator | core/views.py:143-153 | a new household has exactly one membership, the creator's, and it is an admin one |
| Views.HouseholdCreate | core/views.py:137-155 | appends the household created by the caller and the caller's admin membership with share 0; the store stays well formed |
| Views.AddMemberCheck | core/views.py:91-125 | accepts exactly when the caller is an admin of an existing household, the percentage is valid, one user has the lower-cased email and that user has no membership there; NotAdmin exactly for a non-admin member; past the admin and form checks, UserNotFound exactly when no user has the email, and AlreadyMember exactly when the one user with it is already a member |
| Views.WithMembership | core/views.py:120-125 | appends exactly the given membership and changes nothing else; when the pair has no membership yet and both ends exist, a well-formed store stays well formed |
| Views.AddMemberKeepsWellFormed | core/views.py:115-125 | an accepted add-member keeps the store well formed, so never duplicates a (user, household) pair |
| Views.AddMemberTwiceIsAlreadyMember | core/views.py:115-118 | repeating an accepted add-member request is answered AlreadyMember |
| Views.AddMember | core/views.py:91-127 | answers `AddMemberCheck`; on acceptance appends one `member` row with the given percentage; on refusal changes nothing |
| Views.SharesFor | core/views.py:181-186 | one share of `perHead` per membership, in order |
| Views.SplitEqually | core/views.py:177-186 | one share per membership, each of `amount / count`, in order; none when there are no memberships |
| Views.WithExpense | core/views.py:171-186 | appends the expense and exactly one share per membership its household has at that moment, each of `amount / count` (none with no members); nothing else changes |
| Views.SplitEquallyCoversAmount | core/views.py:179-186 | with exact division, the shares of a split add up to the amount |
| Views.ExpenseCreateKeepsWellFormed | core/views.py:171-186 | a created expense, paid by a member, keeps the store well formed: its shares go to members and add up to its amount |
| Views.CreateShares | core/views.py:176-186 | the share loop appends exactly the equal split, and none when there are no members |
| Views.ExpenseCreate | core/views.py:162-188 | refuses as `Authorize` does and then changes nothing; otherwise appends the expense with the caller's membership as payer and its equal split; the store stays well formed |
| Views.WithChore | core/views.py:207-209 | appends exactly the chore and changes nothing else; a chore of an existing household assigned to one of its memberships keeps the store well formed |
| Views.ChoreCreate | core/views.py:198-210 | refuses non-members and an assignee outside the household, changing nothing; otherwise appends the chore to the household |
| Views.Toggled | core/views.py:227-230 | `pending` becomes `completed`; any other status becomes `pending` |
| Views.ToggleTwiceRestores | core/views.py:227-230 | toggling twice restores a status exactly when it is `pending` or `completed` |
| Views.ToggleCheck | core/views.py:223-225 | NotFound exactly for a missing chore; NotMember exactly when the chore exists and the caller has no membership in its household; otherwise the chore's household |
| Views.WithToggled | core/views.py:227-231 | only the toggled chore's status changes |
| Views.ToggleTwiceRestoresTables | core/views.py:223-231 | toggling a `pending` or `completed` chore twice restores the tables |
| Views.ChoreToggleStatus | core/views.py:220-233 | answers `ToggleCheck`; toggles the chore when it succeeds and changes nothing when it fails; the store stays well formed |

## Left out

- Login, logout, registration, and the home and profile redirects: they call Django's authentication (core/views.py:16-20 and 236-289). Password hashing by `set_password` is also out; `RegisterForm.Save` stores the password as given.
- Rendering, redirects, flash messages and GET requests that show an empty form. Outcomes are result values instead.
- The ORM itself (querysets, `aggregate(Sum)`, `select_related`) and the ordering of expenses by date and chores by due date.
- Views.Detail: `ExpensesOf` and `ChoresOf` are in table order, not sorted by date, because the date ordering needs the models' date fields.
- The difference between `get_object_or_404` (a 404) and an uncaught `Membership.DoesNotExist` (a server error). Both are the failure `NotMember`.
- Views.AddMemberCheck: an uncaught `MultipleObjectsReturned` from the email lookup is the failure `MultipleUsers`. `Forms.UniqueEmailsFindAtMostOne` shows it cannot happen while emails stay unique.
- Decimal precision and database rounding: amounts are exact. `Views.SplitEquallyCoversAmount` and `Ledger.BalancesSumToZero` therefore do not hold for the app's rounded arithmetic.
- Views.ExpenseCreate: the amount is not checked to be positive, since no view checks it.
- Views.ExpenseCreate: the expense and its shares are not written atomically and no rounding remainder is distributed, since the view does neither; the model divides exactly.
- Two concurrent expense creations reading the membership count: there is no concurrency in the model.
- Django's built-in field validation: email format, required fields, and the model fields' own limits. `core/models.py` is not part of this model.
- Views.ExpenseCreate and Views.HouseholdCreate: `ExpenseForm` and `HouseholdForm` validity is not modelled, so every submitted form is treated as valid.
- Views.ChoreCreate: only the assignee rule of `ChoreForm` is checked.
- The choices allowed for a chore's status: status is a free string.
- Forms.Lower: lower-cases the ASCII letters A-Z only, not all of Unicode.
- Forms.AtMostTwoDecimals: works on the value, so it accepts `1.000`, which Django's decimal-places rule refuses because it counts the trailing zeros.
- `AddMemberForm`'s email field is any string; its email-format check is not modelled.
