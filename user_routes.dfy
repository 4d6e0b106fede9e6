/** POST /api/users: sign up. */
module UserRoutes {
  import opened Wrappers
  import opened Tables
  import opened Entities
  import opened Store
  import opened UserRules

  /** Both refusals answer 400: the failed body checks, or the duplicate
      e-mail and username messages. */
  datatype SignupError = Invalid(fields: set<SignupField>) | Duplicate(errors: DuplicateErrors)

  function SignupStatus(e: SignupError): nat {
    match e
    case Invalid(_) => 400
    case Duplicate(_) => 400
  }

  /** The handler's two duplicate lookups, each filling its field of `errors`. */
  method DuplicateChecks(db: Db, email: string, username: string) returns (errors: DuplicateErrors)
    ensures errors.email.Some? <==> EmailTaken(db.users, email)
    ensures errors.username.Some? <==> UsernameTaken(db.users, username)
    ensures errors.email.Some? ==> errors.email.value == EmailTakenMsg
    ensures errors.username.Some? ==> errors.username.value == UsernameTakenMsg
    // the link to the function SignUp's contract is written in
    ensures errors == CheckDuplicates(db.users, email, username)
  {
    errors := DuplicateErrors(None, None);
    if EmailTaken(db.users, email) {
      errors := errors.(email := Some(EmailTakenMsg));
    }
    if UsernameTaken(db.users, username) {
      errors := errors.(username := Some(UsernameTakenMsg));
    }
  }

  /** Sign-up. `isEmail` is the e-mail syntax check and `hashedPassword` is
      what bcrypt makes of the password: both are left to the caller. */
  method SignUp(db: Db, input: SignupInput, isEmail: string -> bool, hashedPassword: string)
    returns (res: Result<SafeUser, SignupError>)
    requires db.Valid()
    modifies db`users, db`nextUserId
    ensures db.Valid()
    ensures ValidateSignup(input, isEmail) != {} ==>
      res == Err(Invalid(ValidateSignup(input, isEmail))) && db.users == old(db.users) && db.nextUserId == old(db.nextUserId)
    ensures ValidateSignup(input, isEmail) == {} &&
            CheckDuplicates(old(db.users), input.email.value, input.username.value).Any() ==>
      && res == Err(Duplicate(CheckDuplicates(old(db.users), input.email.value, input.username.value)))
      && db.users == old(db.users) && db.nextUserId == old(db.nextUserId)
    ensures ValidateSignup(input, isEmail) == {} &&
            !CheckDuplicates(old(db.users), input.email.value, input.username.value).Any() ==>
      res.Ok?
    ensures res.Ok? ==>
      && ValidateSignup(input, isEmail) == {}
      && !CheckDuplicates(old(db.users), input.email.value, input.username.value).Any()
      && var row := Row(old(db.nextUserId), User(input.email.value, input.username.value, hashedPassword,
                                                 input.firstName.value, input.lastName.value));
         && db.users == old(db.users) + [row]
         && db.nextUserId == old(db.nextUserId) + 1
         && res.value == Safe(row)
    ensures res.Err? ==> db.users == old(db.users)
  {
    var invalid := ValidateSignup(input, isEmail);
    if invalid != {} {
      return Err(Invalid(invalid));
    }
    SignupAcceptedIff(input, isEmail);
    var errors := DuplicateChecks(db, input.email.value, input.username.value);
    if errors.Any() {
      return Err(Duplicate(errors));
    }
    var user := User(input.email.value, input.username.value, hashedPassword,
                     input.firstName.value, input.lastName.value);
    var row := Row(db.nextUserId, user);
    CreateKeepsUnique(db.users, user, db.nextUserId);
    InsertKeyed(db.users, db.nextUserId, user);
    db.users := db.users + [row];
    db.nextUserId := db.nextUserId + 1;
    res := Ok(Safe(row));
  }
}
