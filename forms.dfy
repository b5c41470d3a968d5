/** The custom validation of the app's forms: registration (email
    lower-casing and uniqueness, password confirmation, saving the user),
    the share percentage of the add-member form, and the chore form whose
    assignee choices are limited to one household. */
module Forms {
  import opened Wrappers
  import opened Models

  // ---------------------------------------------------------------------
  // Lower-casing

  function LowerChar(c: char): char {
    if 'A' <= c <= 'Z' then (c as int + 32) as char else c
  }

  /** `s.lower()` on ASCII letters. */
  function Lower(s: string): (r: string)
    ensures |r| == |s|
    ensures forall i :: 0 <= i < |s| ==> r[i] == LowerChar(s[i])
    ensures forall i :: 0 <= i < |r| ==> !('A' <= r[i] <= 'Z')
  {
    if s == [] then [] else [LowerChar(s[0])] + Lower(s[1..])
  }

  lemma LowerIdempotent(s: string)
    ensures Lower(Lower(s)) == Lower(s)
  {
  }

  // ---------------------------------------------------------------------
  // RegisterForm

  const EmailTaken := "This email is already registered."
  const PasswordsDiffer := "Passwords do not match."

  /** No two users share an email. */
  ghost predicate EmailsUnique(users: seq<User>) {
    forall i, j :: 0 <= i < j < |users| ==> users[i].email != users[j].email
  }

  /** `RegisterForm.clean_email`: the lower-cased email, refused when a user
      already has it. */
  function CleanEmail(users: seq<User>, email: string): (r: Result<string, string>)
    ensures r.Ok? <==> forall i :: 0 <= i < |users| ==> users[i].email != Lower(email)
    ensures r.Ok? ==> r.value == Lower(email)
    ensures r.Err? ==> r.error == EmailTaken
  {
    var lowered := Lower(email);
    if UsersWithEmail(users, lowered) != [] then Err(EmailTaken) else Ok(lowered)
  }

  /** A registration saved after `clean_email` accepted its email keeps the
      users' emails unique (`save` lower-cases the cleaned email once more). */
  lemma RegisteredEmailStaysUnique(users: seq<User>, email: string, u: User)
    requires EmailsUnique(users)
    requires CleanEmail(users, email).Ok?
    requires u.email == Lower(CleanEmail(users, email).value)
    ensures EmailsUnique(users + [u])
  {
    LowerIdempotent(email);
  }

  /** When emails are unique, an email lookup finds at most one user. */
  lemma {:induction false} UniqueEmailsFindAtMostOne(users: seq<User>, email: string)
    requires EmailsUnique(users)
    ensures |UsersWithEmail(users, email)| <= 1
    decreases |users|
  {
    if users != [] {
      UniqueEmailsFindAtMostOne(users[..|users| - 1], email);
    }
  }

  /** A form value that Python treats as true: present and not empty. */
  predicate Given(data: map<string, string>, field: string) {
    field in data && data[field] != ""
  }

  /** The value of a field, or "" when the form has none. */
  function Field(data: map<string, string>, field: string): string {
    if field in data then data[field] else ""
  }

  /** `clean` adds a password2 error exactly in this case. */
  predicate PasswordsMismatch(data: map<string, string>) {
    Given(data, "password1") && Given(data, "password2") && data["password1"] != data["password2"]
  }

  class RegisterForm {
    /** The fields that passed their own validation, by name. */
    var cleanedData: map<string, string>
    /** The messages recorded per field. */
    var errors: map<string, seq<string>>

    constructor (cleaned: map<string, string>)
      ensures cleanedData == cleaned && errors == map[]
    {
      cleanedData := cleaned;
      errors := map[];
    }

    /** `add_error(field, message)`: records the message and drops the field
        from the cleaned data. */
    method AddError(field: string, message: string)
      modifies this
      ensures errors == old(errors)[field := (if field in old(errors) then old(errors)[field] else []) + [message]]
      ensures cleanedData == old(cleanedData) - {field}
    {
      var earlier := if field in errors then errors[field] else [];
      errors := errors[field := earlier + [message]];
      cleanedData := cleanedData - {field};
    }

    /** `RegisterForm.clean`. */
    method Clean()
      modifies this
      ensures PasswordsMismatch(old(cleanedData)) ==>
        && errors == old(errors)["password2" := (if "password2" in old(errors) then old(errors)["password2"] else []) + [PasswordsDiffer]]
        && cleanedData == old(cleanedData) - {"password2"}
      ensures !PasswordsMismatch(old(cleanedData)) ==> errors == old(errors) && cleanedData == old(cleanedData)
    {
      if PasswordsMismatch(cleanedData) {
        AddError("password2", PasswordsDiffer);
      }
    }

    /** `RegisterForm.save`: the user's username and email are both the
        lower-cased email; the user is stored only when `commit` holds.
        The password is kept as given (hashing is not modelled). */
    method Save(db: Store, commit: bool) returns (u: User)
      requires db.Valid()
      requires "email" in cleanedData && "password1" in cleanedData
      modifies db`users
      ensures u.username == Lower(cleanedData["email"]) && u.email == Lower(cleanedData["email"])
      ensures u.firstName == Field(cleanedData, "first_name") && u.lastName == Field(cleanedData, "last_name")
      ensures u.password == cleanedData["password1"]
      ensures db.users == old(db.users) + (if commit then [u] else [])
      ensures db.Valid()
    {
      var email := Lower(cleanedData["email"]);
      u := User(email, email, Field(cleanedData, "first_name"), Field(cleanedData, "last_name"), cleanedData["password1"]);
      if commit {
        db.users := db.users + [u];
      }
    }
  }

  // ---------------------------------------------------------------------
  // AddMemberForm.share_percentage

  predicate AtMostTwoDecimals(p: real) {
    (p * 100.0).Floor as real == p * 100.0
  }

  /** A DecimalField with min_value 0, max_value 100 and two decimal places. */
  predicate ValidSharePercentage(p: real) {
    0.0 <= p <= 100.0 && AtMostTwoDecimals(p)
  }

  /** Every accepted share percentage is a whole number of hundredths between
      0 and 100. */
  lemma AcceptedPercentageIsHundredths(p: real)
    requires ValidSharePercentage(p)
    ensures 0 <= (p * 100.0).Floor <= 10000
    ensures p == (p * 100.0).Floor as real / 100.0
  {
  }

  /** Every whole number of hundredths between 0 and 100 is accepted. */
  lemma HundredthsAreAccepted(c: int)
    requires 0 <= c <= 10000
    ensures ValidSharePercentage(c as real / 100.0)
  {
  }

  // ---------------------------------------------------------------------
  // ChoreForm

  /** The memberships offered as `assigned_to`: those of the household when
      one is given, all of them otherwise. */
  function AssigneeChoices(ms: seq<Membership>, household: Option<Id>): (r: seq<Id>)
    ensures forall i: nat :: i in r <==> i < |ms| && (household.Some? ==> ms[i].household == household.value)
  {
    match household
    case None => AllIds(|ms|)
    case Some(h) => MembersOf(ms, h)
  }

  function AllIds(n: nat): (r: seq<Id>)
    ensures forall i: nat :: i in r <==> i < n
  {
    if n == 0 then [] else AllIds(n - 1) + [n - 1]
  }

  class ChoreForm {
    /** The membership table the `assigned_to` choices are drawn from. */
    const memberships: seq<Membership>
    /** The household the form was given, if any. */
    const household: Option<Id>
    var assignedToChoices: seq<Id>

    /** `ChoreForm.__init__`. */
    constructor (ms: seq<Membership>, household: Option<Id>)
      ensures memberships == ms && this.household == household
      ensures assignedToChoices == AssigneeChoices(ms, household)
    {
      memberships := ms;
      this.household := household;
      assignedToChoices := AssigneeChoices(ms, household);
    }

    /** The form accepts `assignee` for `assigned_to`: while the choices are
        those `__init__` set, exactly a membership of the form's household
        (any membership when it has none). */
    predicate Accepts(assignee: Id)
      reads this
      ensures assignedToChoices == AssigneeChoices(memberships, household) ==>
        (Accepts(assignee) <==>
           (assignee < |memberships| && (household.Some? ==> memberships[assignee].household == household.value)))
    {
      assignee in assignedToChoices
    }
  }
}
