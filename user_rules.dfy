/** The sign-up rules: `validateSignup`, the duplicate email and username
    checks, and the `safeUser` projection returned to the client. */
module UserRules {
  import opened Wrappers
  import opened Tables
  import opened Entities

  const EmailTakenMsg := "Email is already taken."
  const UsernameTakenMsg := "Username is already taken."

  /** The request body; a field the client did not send is None. */
  datatype SignupInput = SignupInput(
    email: Option<string>,
    password: Option<string>,
    username: Option<string>,
    firstName: Option<string>,
    lastName: Option<string>)

  datatype SignupField = LastName | FirstName | Email | Username | Password

  /** `exists({ checkFalsy: true })`: sent and not the empty string. */
  predicate Present(s: Option<string>) {
    s.Some? && s.value != ""
  }

  /** `validateSignup`. The e-mail syntax check of express-validator is the
      parameter `isEmail`. The username is refused when it is short or when it
      looks like an e-mail address; both chains report under "username". */
  function ValidateSignup(input: SignupInput, isEmail: string -> bool): set<SignupField> {
    (if !Present(input.lastName) then {LastName} else {})
    + (if !Present(input.firstName) then {FirstName} else {})
    + (if !Present(input.email) || !isEmail(input.email.value) then {Email} else {})
    + (if !Present(input.username) || |input.username.value| < 4 then {Username} else {})
    + (if input.username.Some? && isEmail(input.username.value) then {Username} else {})
    + (if !Present(input.password) || |input.password.value| < 6 then {Password} else {})
  }

  /** A sign-up body passes exactly when the names are present, the e-mail is
      one, the username has at least 4 characters and is not an e-mail, and the
      password has at least 6 characters. */
  lemma SignupAcceptedIff(input: SignupInput, isEmail: string -> bool)
    ensures ValidateSignup(input, isEmail) == {} <==>
      && Present(input.lastName) && Present(input.firstName)
      && Present(input.email) && isEmail(input.email.value)
      && input.username.Some? && |input.username.value| >= 4 && !isEmail(input.username.value)
      && input.password.Some? && |input.password.value| >= 6
  {
    if ValidateSignup(input, isEmail) == {} {
      assert LastName !in ValidateSignup(input, isEmail);
      assert FirstName !in ValidateSignup(input, isEmail);
      assert Email !in ValidateSignup(input, isEmail);
      assert Username !in ValidateSignup(input, isEmail);
      assert Password !in ValidateSignup(input, isEmail);
    }
  }

  predicate EmailTaken(users: Table<User>, email: string) {
    exists i :: 0 <= i < |users| && users[i].val.email == email
  }

  predicate UsernameTaken(users: Table<User>, username: string) {
    exists i :: 0 <= i < |users| && users[i].val.username == username
  }

  /** The `errors` object of the duplicate checks. */
  datatype DuplicateErrors = DuplicateErrors(email: Option<string>, username: Option<string>) {
    predicate Any() { email.Some? || username.Some? }
  }

  /** Both lookups always run, so both duplicates are reported together. */
  function CheckDuplicates(users: Table<User>, email: string, username: string): (d: DuplicateErrors)
  {
    DuplicateErrors(
      if EmailTaken(users, email) then Some(EmailTakenMsg) else None,
      if UsernameTaken(users, username) then Some(UsernameTakenMsg) else None)
  }

  /** No two users share an e-mail address or a username. */
  predicate Unique(users: Table<User>) {
    forall i, j :: 0 <= i < j < |users| ==>
      users[i].val.email != users[j].val.email && users[i].val.username != users[j].val.username
  }

  /** A user created after clean duplicate checks keeps e-mails and usernames
      unique. */
  lemma CreateKeepsUnique(users: Table<User>, u: User, id: nat)
    requires Unique(users)
    requires !CheckDuplicates(users, u.email, u.username).Any()
    ensures Unique(users + [Row(id, u)])
  {
    var us := users + [Row(id, u)];
    forall i, j | 0 <= i < j < |us|
      ensures us[i].val.email != us[j].val.email && us[i].val.username != us[j].val.username
    {
      assert us[i] == users[i];
      if j < |users| {
        assert us[j] == users[j];
      } else {
        assert !EmailTaken(users, u.email) && !UsernameTaken(users, u.username);
      }
    }
  }

  /** The user record sent back: no password hash. */
  datatype SafeUser = SafeUser(id: nat, email: string, username: string, firstName: string, lastName: string)

  function Safe(row: Row<User>): (s: SafeUser)
    ensures s.id == row.id && s.email == row.val.email && s.username == row.val.username
    ensures s.firstName == row.val.firstName && s.lastName == row.val.lastName
  {
    SafeUser(row.id, row.val.email, row.val.username, row.val.firstName, row.val.lastName)
  }

  /** The projection does not depend on the stored hash: two rows that differ
      only in `hashedPassword` give the same response. */
  lemma SafeIgnoresHash(row: Row<User>, otherHash: string)
    ensures Safe(row) == Safe(Row(row.id, row.val.(hashedPassword := otherHash)))
  {
  }
}
