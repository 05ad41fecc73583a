/** The account store and its request handlers (controllers/users.js), over
    the `User` record of models/users.js.

    The table is a map from `providerId`, the primary key, to the record.
    Each handler is a method that runs the handler's early-return sequence,
    changes the map as the handler's `User.create` / `User.update` calls do,
    and returns the response it sends. Database and mail failures are
    parameters (`Faults`); so are the random token and the current time.
    `bcrypt` is a pair of uninterpreted functions fixed when the table is
    built. */
module Accounts {
  import opened Common
  import opened Validators

  /** A row of the `User` table. Columns the handlers may leave null are
      `Option`s. The nullable `provider`, `password`, `verified` and
      `loginTimes` are taken as always set, since every row the handlers
      create sets them. `password` holds the digest, never the plain password. */
  datatype User = User(
    providerId: string,
    provider: string,
    emailAddress: Option<string>,
    password: string,
    username: Option<string>,
    verified: int,
    verifiedToken: Option<string>,
    signUpTimestamp: Option<string>,
    loginTimes: int,
    sessionTimestamp: Option<string>)

  /** Why a request was refused (the `data` of a `fail` response, or the
      redirect to the verification error page). */
  datatype Reason =
    | InvalidEmailAddress
    | InvalidPassword
    | InvalidUsername
    | EmailAddressTaken
    | InvalidNewPassword
    | InvalidOldPassword
    | NotExisted
    | AlreadyVerified
    | UnknownToken

  /** The `message` of an `error` response. */
  datatype SystemError = DatabaseError | EmailServiceError

  /** The response a handler sends first. `LoggedIn(u)` is the redirect to
      the dashboard after `req.login(u)`. */
  datatype Response = Success | LoggedIn(user: User) | Fail(reason: Reason) | Error(error: SystemError)

  /** A verification mail handed to the mail service. */
  datatype Mail = Mail(to: string, token: string)

  /** The `data` of a `getUserInfo` response. */
  datatype UserInfo = UserInfo(username: string, emailAddress: string)

  /** What `ensureAuthenticated` does with a request. */
  datatype Gate = Next(user: User) | Unauthorized

  // ---------------------------------------------------------------------------
  // Properties of a table
  // ---------------------------------------------------------------------------

  /** Every row is stored under its own primary key. */
  predicate KeysMatch(users: map<string, User>)
  {
    forall k :: k in users ==> users[k].providerId == k
  }

  /** Some row holds `token` as its verification token. */
  predicate TokenUsed(users: map<string, User>, token: string)
  {
    exists k :: k in users && users[k].verifiedToken == Some(token)
  }

  /** No two rows hold the same verification token, so a token names at most
      one account. */
  predicate TokensUnique(users: map<string, User>)
  {
    forall j, k :: j in users && k in users && j != k && users[j].verifiedToken.Some? ==>
      users[j].verifiedToken != users[k].verifiedToken
  }

  /** A verified account holds no verification token. */
  predicate VerifiedHaveNoToken(users: map<string, User>)
  {
    forall k :: k in users && users[k].verified == 1 ==> users[k].verifiedToken == None
  }

  /** The row `signUp` creates. */
  function NewLocalUser(emailAddress: string, digest: string, username: string, token: string, now: string): User
  {
    User(emailAddress, "local", Some(emailAddress), digest, Some(username), 0, Some(token), Some(now), 0, None)
  }

  /** Marking the row that holds `token` verified consumes the token: no row
      holds it afterwards, the keys stay, and both token properties hold on. */
  lemma ConsumeToken(users: map<string, User>, k: string, token: string)
    requires TokensUnique(users) && k in users && users[k].verifiedToken == Some(token)
    ensures var after := users[k := users[k].(verified := 1, verifiedToken := None)];
      && !TokenUsed(after, token)
      && TokensUnique(after)
      && (VerifiedHaveNoToken(users) ==> VerifiedHaveNoToken(after))
  {
  }

  /** Giving a row a token no row holds keeps tokens unique, and the token the
      row held before is then held by no row at all. */
  lemma Reissue(users: map<string, User>, k: string, token: string)
    requires TokensUnique(users) && k in users && !TokenUsed(users, token)
    ensures var after := users[k := users[k].(verifiedToken := Some(token))];
      && TokensUnique(after)
      && TokenUsed(after, token)
      && (users[k].verifiedToken.Some? ==> !TokenUsed(after, users[k].verifiedToken.value))
  {
    var after := users[k := users[k].(verifiedToken := Some(token))];
    assert after[k].verifiedToken == Some(token);
  }

  /** A new row keyed by an unused key, holding an unused token and not yet
      verified, keeps every property of the table. */
  lemma InsertUnverified(users: map<string, User>, u: User)
    requires u.providerId !in users && u.verified == 0 && u.verifiedToken.Some?
    requires !TokenUsed(users, u.verifiedToken.value)
    ensures var after := users[u.providerId := u];
      && (KeysMatch(users) ==> KeysMatch(after))
      && (TokensUnique(users) ==> TokensUnique(after))
      && (VerifiedHaveNoToken(users) ==> VerifiedHaveNoToken(after))
  {
  }

  // ---------------------------------------------------------------------------
  // Handlers that do not touch the table
  // ---------------------------------------------------------------------------

  /** A string column as `getUserInfo` shows it: the value, or `'N/A'` when
      it is falsy (null or empty). */
  function OrNotAvailable(v: Option<string>): (shown: string)
    ensures shown == "N/A" <==> v in {None, Some(""), Some("N/A")}
    ensures shown != "N/A" ==> v == Some(shown)
  {
    if v.None? || v.value == "" then "N/A" else v.value
  }

  /** `getUserInfo`: the name and address of the session's account, each
      replaced by `'N/A'` when missing or empty. */
  function GetUserInfo(user: User): (info: UserInfo)
    ensures info.username == "N/A" <==> user.username in {None, Some(""), Some("N/A")}
    ensures info.emailAddress == "N/A" <==> user.emailAddress in {None, Some(""), Some("N/A")}
    ensures info.username != "N/A" ==> user.username == Some(info.username)
    ensures info.emailAddress != "N/A" ==> user.emailAddress == Some(info.emailAddress)
  {
    UserInfo(OrNotAvailable(user.username), OrNotAvailable(user.emailAddress))
  }

  /** `ensureAuthenticated`: a request goes on to the next handler, with its
      session's account, exactly when it has one; otherwise it is refused. */
  function EnsureAuthenticated(session: Option<User>): (g: Gate)
    ensures g.Next? <==> session.Some?
    ensures g.Next? ==> g.user == session.value
  {
    match session
    case Some(u) => Next(u)
    case None => Unauthorized
  }

  // ---------------------------------------------------------------------------
  // The table and the handlers that change it
  // ---------------------------------------------------------------------------

  class UserTable {
    /** The rows, by `providerId`. */
    var users: map<string, User>
    /** `User.hashPassword`. */
    const hash: string -> string
    /** `User.comparePassword(password, digest)`. */
    const compare: (string, string) -> bool

    /** The primary key holds: a row sits under its own `providerId`. */
    ghost predicate Valid()
      reads this
    {
      KeysMatch(users)
    }

    /** A table holding `initial`, with the given password functions. */
    constructor (initial: map<string, User>, hash: string -> string, compare: (string, string) -> bool)
      requires KeysMatch(initial)
      ensures Valid()
      ensures users == initial && this.hash == hash && this.compare == compare
    {
      users := initial;
      this.hash := hash;
      this.compare := compare;
    }

    /** Whether the request's fields are acceptable to `signUp` (lines
        16-44): address, then password, then username. */
    static function SignUpInputCheck(emailAddress: string, password: string, username: JsValue): (r: Option<Reason>)
      ensures r == None <==> ValidateEmail(emailAddress) && ValidatePassword(password) && ValidateUsername(username)
      ensures r == Some(InvalidEmailAddress) <==> !ValidateEmail(emailAddress)
      ensures r == Some(InvalidPassword) <==> ValidateEmail(emailAddress) && !ValidatePassword(password)
      ensures r == Some(InvalidUsername) <==>
        ValidateEmail(emailAddress) && ValidatePassword(password) && !ValidateUsername(username)
    {
      if !ValidateEmail(emailAddress) then Some(InvalidEmailAddress)
      else if !ValidatePassword(password) then Some(InvalidPassword)
      else if !ValidateUsername(username) then Some(InvalidUsername)
      else None
    }

    /** `signUp`: validate the fields, refuse a taken address, create an
        unverified local account holding a fresh token, then mail the token.
        `mail` is the mail that went out. A mail failure leaves the new
        account in place. */
    method SignUp(emailAddress: string, password: string, username: JsValue, token: string, now: string, f: Faults)
      returns (r: Response, mail: Option<Mail>)
      requires Valid()
      modifies this
      ensures Valid()
      // an invalid field: refused by the first failing check, nothing looked up
      ensures SignUpInputCheck(emailAddress, password, username).Some? ==>
        r == Fail(SignUpInputCheck(emailAddress, password, username).value) && users == old(users) && mail == None
      // the lookup fails
      ensures SignUpInputCheck(emailAddress, password, username).None? && f.lookup ==>
        r == Error(DatabaseError) && users == old(users) && mail == None
      // the address is already a key
      ensures SignUpInputCheck(emailAddress, password, username).None? && !f.lookup && emailAddress in old(users) ==>
        r == Fail(EmailAddressTaken) && users == old(users) && mail == None
      // the insert fails
      ensures SignUpInputCheck(emailAddress, password, username).None? && !f.lookup && emailAddress !in old(users) && f.write ==>
        r == Error(DatabaseError) && users == old(users) && mail == None
      // the account is created, whatever becomes of the mail
      ensures SignUpInputCheck(emailAddress, password, username).None? && !f.lookup && emailAddress !in old(users) && !f.write ==>
        && users == old(users)[emailAddress := NewLocalUser(emailAddress, hash(password), username.value, token, now)]
        && (f.mail ==> r == Error(EmailServiceError) && mail == None)
        && (!f.mail ==> r == Success && mail == Some(Mail(emailAddress, token)))
      // a success is exactly one new row, and the other rows stay as they were
      ensures r == Success ==> emailAddress !in old(users) && users.Keys == old(users).Keys + {emailAddress}
      ensures users == old(users) || (emailAddress !in old(users) && users.Keys == old(users).Keys + {emailAddress})
      ensures forall k :: k in old(users) ==> k in users && users[k] == old(users)[k]
      // the token properties carry over when the token is unused
      ensures !TokenUsed(old(users), token) && TokensUnique(old(users)) ==> TokensUnique(users)
      ensures VerifiedHaveNoToken(old(users)) ==> VerifiedHaveNoToken(users)
    {
      mail := None;
      var bad := SignUpInputCheck(emailAddress, password, username);
      if bad.Some? {
        return Fail(bad.value), mail;
      }
      if f.lookup {
        return Error(DatabaseError), mail;
      }
      if emailAddress in users {
        return Fail(EmailAddressTaken), mail;
      }
      if f.write {
        return Error(DatabaseError), mail;
      }
      var u := NewLocalUser(emailAddress, hash(password), username.value, token, now);
      if !TokenUsed(users, token) {
        InsertUnverified(users, u);
      }
      users := users[emailAddress := u];
      if f.mail {
        return Error(EmailServiceError), mail;
      }
      mail := Some(Mail(emailAddress, token));
      r := Success;
    }

    /** `verifyUser`: find a row holding the token, mark it verified and
        clear its token, and log its owner in. The session gets the row as it
        was read, before the update. */
    method VerifyUser(token: string, f: Faults) returns (r: Response)
      requires Valid()
      modifies this
      ensures Valid()
      ensures f.lookup ==> r == Error(DatabaseError)
      ensures !f.lookup && !TokenUsed(old(users), token) ==> r == Fail(UnknownToken)
      ensures !f.lookup && TokenUsed(old(users), token) && f.write ==> r == Error(DatabaseError)
      ensures r.LoggedIn? <==> !f.lookup && !f.write && TokenUsed(old(users), token)
      ensures !r.LoggedIn? ==> users == old(users)
      ensures r.LoggedIn? ==>
        && r.user.providerId in old(users)
        && r.user == old(users)[r.user.providerId]
        && r.user.verifiedToken == Some(token)
        && users == old(users)[r.user.providerId := r.user.(verified := 1, verifiedToken := None)]
      // the token is single use
      ensures r.LoggedIn? && TokensUnique(old(users)) ==> !TokenUsed(users, token) && TokensUnique(users)
      ensures VerifiedHaveNoToken(old(users)) ==> VerifiedHaveNoToken(users)
    {
      if f.lookup {
        return Error(DatabaseError);
      }
      if !TokenUsed(users, token) {
        return Fail(UnknownToken);
      }
      var k :| k in users && users[k].verifiedToken == Some(token);
      var user := users[k];
      if f.write {
        return Error(DatabaseError);
      }
      if TokensUnique(users) {
        ConsumeToken(users, k, token);
      }
      users := users[k := user.(verified := 1, verifiedToken := None)];
      r := LoggedIn(user);
    }

    /** `resendVerificationMail` as written: its already-verified branch sends
        the refusal but does not return, so the handler goes on, replaces the
        token of a verified account and mails it. `r` is the response the
        client receives, the first one sent. */
    method ResendVerificationMail(emailAddress: string, token: string, f: Faults)
      returns (r: Response, mail: Option<Mail>)
      requires Valid()
      modifies this
      ensures Valid()
      ensures !ValidateEmail(emailAddress) ==> r == Fail(InvalidEmailAddress) && users == old(users) && mail == None
      ensures ValidateEmail(emailAddress) && f.lookup ==> r == Error(DatabaseError) && users == old(users) && mail == None
      ensures ValidateEmail(emailAddress) && !f.lookup && emailAddress !in old(users) ==>
        r == Fail(NotExisted) && users == old(users) && mail == None
      ensures ValidateEmail(emailAddress) && !f.lookup && emailAddress in old(users) ==>
        && (old(users)[emailAddress].verified == 1 ==> r == Fail(AlreadyVerified))
        && (f.write ==> users == old(users) && mail == None)
        && (!f.write ==> users == old(users)[emailAddress := old(users)[emailAddress].(verifiedToken := Some(token))])
        && (!f.write && !f.mail ==> mail == Some(Mail(emailAddress, token)))
        && (f.write || f.mail ==> mail == None)
        && (old(users)[emailAddress].verified != 1 ==>
              r == (if f.write then Error(DatabaseError) else if f.mail then Error(EmailServiceError) else Success))
      ensures !TokenUsed(old(users), token) && TokensUnique(old(users)) ==> TokensUnique(users)
    {
      mail := None;
      if !ValidateEmail(emailAddress) {
        return Fail(InvalidEmailAddress), mail;
      }
      if f.lookup {
        return Error(DatabaseError), mail;
      }
      if emailAddress !in users {
        return Fail(NotExisted), mail;
      }
      var user := users[emailAddress];
      // The first response sent is the one that counts; later ones fail.
      var first: Option<Response> := None;
      if user.verified == 1 {
        first := Some(Fail(AlreadyVerified));
      }
      if f.write {
        r := if first.Some? then first.value else Error(DatabaseError);
        return;
      }
      if TokensUnique(users) && !TokenUsed(users, token) {
        Reissue(users, emailAddress, token);
      }
      users := users[emailAddress := user.(verifiedToken := Some(token))];
      if f.mail {
        r := if first.Some? then first.value else Error(EmailServiceError);
        return;
      }
      mail := Some(Mail(emailAddress, token));
      r := if first.Some? then first.value else Success;
    }

    /** `resendVerificationMail` with the missing `return` restored: a
        verified account is refused and left alone. The old token stops
        working as soon as the new one is stored. */
    method ResendVerificationMailCorrected(emailAddress: string, token: string, f: Faults)
      returns (r: Response, mail: Option<Mail>)
      requires Valid()
      modifies this
      ensures Valid()
      ensures !ValidateEmail(emailAddress) ==> r == Fail(InvalidEmailAddress) && users == old(users) && mail == None
      ensures ValidateEmail(emailAddress) && f.lookup ==> r == Error(DatabaseError) && users == old(users) && mail == None
      ensures ValidateEmail(emailAddress) && !f.lookup && emailAddress !in old(users) ==>
        r == Fail(NotExisted) && users == old(users) && mail == None
      ensures ValidateEmail(emailAddress) && !f.lookup && emailAddress in old(users) && old(users)[emailAddress].verified == 1 ==>
        r == Fail(AlreadyVerified) && users == old(users) && mail == None
      ensures ValidateEmail(emailAddress) && !f.lookup && emailAddress in old(users) && old(users)[emailAddress].verified != 1 ==>
        && (f.write ==> r == Error(DatabaseError) && users == old(users) && mail == None)
        && (!f.write ==> users == old(users)[emailAddress := old(users)[emailAddress].(verifiedToken := Some(token))])
        && (!f.write && f.mail ==> r == Error(EmailServiceError) && mail == None)
        && (!f.write && !f.mail ==> r == Success && mail == Some(Mail(emailAddress, token)))
      // the table properties survive, and a reissued token replaces the old one
      ensures !TokenUsed(old(users), token) && TokensUnique(old(users)) ==> TokensUnique(users)
      ensures VerifiedHaveNoToken(old(users)) ==> VerifiedHaveNoToken(users)
      ensures !TokenUsed(old(users), token) && TokensUnique(old(users)) && users != old(users) ==>
        emailAddress in old(users) && TokenUsed(users, token) &&
        (old(users)[emailAddress].verifiedToken.Some? ==> !TokenUsed(users, old(users)[emailAddress].verifiedToken.value))
    {
      mail := None;
      if !ValidateEmail(emailAddress) {
        return Fail(InvalidEmailAddress), mail;
      }
      if f.lookup {
        return Error(DatabaseError), mail;
      }
      if emailAddress !in users {
        return Fail(NotExisted), mail;
      }
      var user := users[emailAddress];
      if user.verified == 1 {
        return Fail(AlreadyVerified), mail;
      }
      if f.write {
        return Error(DatabaseError), mail;
      }
      if TokensUnique(users) && !TokenUsed(users, token) {
        Reissue(users, emailAddress, token);
      }
      users := users[emailAddress := user.(verifiedToken := Some(token))];
      if f.mail {
        return Error(EmailServiceError), mail;
      }
      mail := Some(Mail(emailAddress, token));
      r := Success;
    }

    /** `updateUserInfo`: a string `newUsername` replaces the username of the
        session's account and nothing else. A session whose key has no row
        changes nothing, yet succeeds, as an update that matches no row does. */
    method UpdateUserInfo(caller: User, newUsername: JsValue, f: Faults) returns (r: Response)
      requires Valid()
      modifies this
      ensures Valid()
      ensures !ValidateUsername(newUsername) ==> r == Fail(InvalidUsername) && users == old(users)
      ensures ValidateUsername(newUsername) && f.write ==> r == Error(DatabaseError) && users == old(users)
      ensures ValidateUsername(newUsername) && !f.write ==>
        && r == Success
        && users.Keys == old(users).Keys
        && (caller.providerId in old(users) ==>
              users == old(users)[caller.providerId := old(users)[caller.providerId].(username := Some(newUsername.value))])
        && (caller.providerId !in old(users) ==> users == old(users))
      ensures TokensUnique(old(users)) ==> TokensUnique(users)
      ensures VerifiedHaveNoToken(old(users)) ==> VerifiedHaveNoToken(users)
    {
      if !ValidateUsername(newUsername) {
        return Fail(InvalidUsername);
      }
      if f.write {
        return Error(DatabaseError);
      }
      var key := caller.providerId;
      if key in users {
        users := users[key := users[key].(username := Some(newUsername.value))];
      }
      r := Success;
    }

    /** `updateUserPassword`: a valid new password whose old password matches
        the session's digest replaces the digest of the session's account, and
        nothing else. The new password is checked before the old one. */
    method UpdateUserPassword(caller: User, oldPassword: string, newPassword: string, f: Faults) returns (r: Response)
      requires Valid()
      modifies this
      ensures Valid()
      ensures !ValidatePassword(newPassword) ==> r == Fail(InvalidNewPassword) && users == old(users)
      ensures ValidatePassword(newPassword) && !compare(oldPassword, caller.password) ==>
        r == Fail(InvalidOldPassword) && users == old(users)
      ensures ValidatePassword(newPassword) && compare(oldPassword, caller.password) && f.write ==>
        r == Error(DatabaseError) && users == old(users)
      ensures ValidatePassword(newPassword) && compare(oldPassword, caller.password) && !f.write ==>
        && r == Success
        && users.Keys == old(users).Keys
        && (caller.providerId in old(users) ==>
              users == old(users)[caller.providerId := old(users)[caller.providerId].(password := hash(newPassword))])
        && (caller.providerId !in old(users) ==> users == old(users))
      ensures TokensUnique(old(users)) ==> TokensUnique(users)
      ensures VerifiedHaveNoToken(old(users)) ==> VerifiedHaveNoToken(users)
    {
      if !ValidatePassword(newPassword) {
        return Fail(InvalidNewPassword);
      }
      if !compare(oldPassword, caller.password) {
        return Fail(InvalidOldPassword);
      }
      if f.write {
        return Error(DatabaseError);
      }
      var key := caller.providerId;
      if key in users {
        users := users[key := users[key].(password := hash(newPassword))];
      }
      r := Success;
    }
  }
}
