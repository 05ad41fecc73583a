/** Request sequences against a fresh table, end to end: what a client sees
    and what the table holds afterwards, for every sign-up that passes
    validation. The password functions are stand-ins (a digest is the
    password behind a marker); nothing here depends on what bcrypt
    computes. */
module Scenarios {
  import opened Common
  import opened Validators
  import opened Accounts
  import opened LegacySignup

  /** An empty account table with stand-in password functions. */
  method NewTable() returns (t: UserTable)
    ensures fresh(t) && t.Valid() && t.users == map[]
    ensures forall p :: t.hash(p) == "#" + p
    ensures forall p, h :: t.compare(p, h) <==> h == "#" + p
  {
    t := new UserTable(map[], p => "#" + p, (p, h) => h == "#" + p);
  }

  /** Different passwords get different stand-in digests. */
  lemma StandInDigestsDiffer(p: string, q: string)
    requires p != q
    ensures "#" + p != "#" + q
  {
    assert ("#" + p)[1..] == p && ("#" + q)[1..] == q;
  }

  /** Sign-up fields the validators accept. */
  predicate Acceptable(address: string, password: string, name: string)
  {
    UserTable.SignUpInputCheck(address, password, JsString(name)) == None
  }

  /** The example address `test@test.com` and password `Aa123123!` of the
      API documentation are acceptable sign-up fields. */
  lemma ExampleInputsAcceptable()
    ensures Acceptable("test" + "@" + "test.com", "Aa123123!", "Test123")
  {
    EmailAcceptsExample();
    PasswordAcceptsExample();
  }

  /** Sign up, follow the mailed link, then follow it again: the account is
      verified and loses its token, the session gets the row as it was read,
      and the second visit finds no account. */
  method SignUpVerifyReplay(address: string, password: string, name: string, token: string, now: string)
    returns (signUp: Response, mail: Option<Mail>, verify: Response, row: User, replay: Response)
    requires Acceptable(address, password, name)
    ensures signUp == Success && mail == Some(Mail(address, token))
    ensures verify.LoggedIn? && verify.user == NewLocalUser(address, "#" + password, name, token, now)
    ensures row.verified == 1 && row.verifiedToken == None && row.password == "#" + password
    ensures replay == Fail(UnknownToken)
  {
    var t := NewTable();
    signUp, mail := t.SignUp(address, password, JsString(name), token, now, NoFaults);
    assert t.users[address].verifiedToken == Some(token);
    verify := t.VerifyUser(token, NoFaults);
    row := t.users[address];
    replay := t.VerifyUser(token, NoFaults);
  }

  /** A second sign-up with the same address is refused, whatever its other
      fields, and the table keeps one account. */
  method SignUpTwice(address: string, password: string, name: string, other: string, now: string)
    returns (first: Response, second: Response, accounts: nat)
    requires Acceptable(address, password, name) && Acceptable(address, password, other)
    ensures first == Success && second == Fail(EmailAddressTaken) && accounts == 1
  {
    var t := NewTable();
    var mail;
    first, mail := t.SignUp(address, password, JsString(name), "t1", now, NoFaults);
    second, mail := t.SignUp(address, password, JsString(other), "t2", now, NoFaults);
    accounts := |t.users|;
  }

  /** Resending to a verified account as written: the client is told it is
      verified, yet the new token is stored on the verified account and
      mailed, so a verified account holds a token. */
  method ResendAfterVerify(address: string, password: string, name: string, token: string, next: string, now: string)
    returns (resend: Response, mail: Option<Mail>, row: User, consistent: bool)
    requires Acceptable(address, password, name)
    ensures resend == Fail(AlreadyVerified)
    ensures mail == Some(Mail(address, next))
    ensures row.verified == 1 && row.verifiedToken == Some(next)
    ensures !consistent
  {
    var t := NewTable();
    var r, m := t.SignUp(address, password, JsString(name), token, now, NoFaults);
    assert t.users[address].verifiedToken == Some(token);
    r := t.VerifyUser(token, NoFaults);
    resend, mail := t.ResendVerificationMail(address, next, NoFaults);
    row := t.users[address];
    consistent := VerifiedHaveNoToken(t.users);
  }

  /** The same requests with the `return` restored: the refusal is all that
      happens, and no verified account holds a token. */
  method ResendAfterVerifyCorrected(address: string, password: string, name: string, token: string, next: string, now: string)
    returns (resend: Response, mail: Option<Mail>, row: User, consistent: bool)
    requires Acceptable(address, password, name)
    ensures resend == Fail(AlreadyVerified) && mail == None
    ensures row.verified == 1 && row.verifiedToken == None
    ensures consistent
  {
    var t := NewTable();
    var r, m := t.SignUp(address, password, JsString(name), token, now, NoFaults);
    assert t.users[address].verifiedToken == Some(token);
    r := t.VerifyUser(token, NoFaults);
    resend, mail := t.ResendVerificationMailCorrected(address, next, NoFaults);
    row := t.users[address];
    consistent := VerifiedHaveNoToken(t.users);
  }

  /** A mail outage during sign-up keeps the unverified account; a resend
      replaces its token, after which only the new token verifies it. */
  method MailOutageThenResend(address: string, password: string, name: string, token: string, next: string, now: string)
    returns (signUp: Response, resend: Response, stale: Response, verify: Response)
    requires Acceptable(address, password, name) && token != next
    ensures signUp == Error(EmailServiceError)
    ensures resend == Success
    ensures stale == Fail(UnknownToken)
    ensures verify.LoggedIn? && verify.user.providerId == address
  {
    var t := NewTable();
    var mail;
    signUp, mail := t.SignUp(address, password, JsString(name), token, now, Faults(false, false, true));
    assert t.users[address].verifiedToken == Some(token);
    resend, mail := t.ResendVerificationMail(address, next, NoFaults);
    assert t.users[address].verifiedToken == Some(next);
    stale := t.VerifyUser(token, NoFaults);
    verify := t.VerifyUser(next, NoFaults);
  }

  /** A password change needs the old password; with it, only the digest
      changes. */
  method ChangePassword(address: string, password: string, name: string, wrongOld: string, newPassword: string, now: string)
    returns (wrong: Response, right: Response, before: User, after: User)
    requires Acceptable(address, password, name) && ValidatePassword(newPassword) && wrongOld != password
    ensures wrong == Fail(InvalidOldPassword) && right == Success
    ensures after == before.(password := "#" + newPassword)
  {
    var t := NewTable();
    var r, m := t.SignUp(address, password, JsString(name), "t1", now, NoFaults);
    before := t.users[address];
    StandInDigestsDiffer(wrongOld, password);
    wrong := t.UpdateUserPassword(before, wrongOld, newPassword, NoFaults);
    right := t.UpdateUserPassword(before, password, newPassword, NoFaults);
    after := t.users[address];
  }

  /** An empty username is accepted, and then shown as `'N/A'`. */
  method EmptyUsername(address: string, password: string, name: string, now: string)
    returns (update: Response, info: UserInfo)
    requires Acceptable(address, password, name)
    ensures update == Success && info == UserInfo("N/A", address)
  {
    // An acceptable address holds `@`, so it is neither empty nor `N/A`.
    EmailNeedsAt("N/A");
    var t := NewTable();
    var r, m := t.SignUp(address, password, JsString(name), "t1", now, NoFaults);
    update := t.UpdateUserInfo(t.users[address], JsString(""), NoFaults);
    info := GetUserInfo(t.users[address]);
  }

  /** The legacy strategy twice with one address: the first stores the
      password as given and the address as the username, the second is
      refused. */
  method LegacySignupTwice(address: string, password: string, now: string)
    returns (first: Done, second: Done, rows: seq<LegacyUser>)
    ensures first.SignedUp? && first.user.password == Some(password) && first.user.username == Some(address)
    ensures second == Refused("EmailAddressTaken")
    ensures rows == [first.user]
  {
    var t := new LegacyUserTable([]);
    first := t.LocalSignup(address, password, now, NoFaults);
    assert t.rows[0].emailAddress == address;
    second := t.LocalSignup(address, password, now, NoFaults);
    rows := t.rows;
  }
}
