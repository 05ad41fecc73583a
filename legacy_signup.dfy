/** The `local-signup` strategy of services/passport.js, over the older `User`
    record of models/user.js: look the address up, refuse it when a row
    already holds it, and otherwise insert a row that keeps the password as
    given and uses the address as the username.

    That schema has no key of its own among its columns; its rows are kept in
    insertion order. The strategy's `done` callback becomes the `Done`
    result. */
module LegacySignup {
  import opened Common

  /** A row of the older `User` table. */
  datatype LegacyUser = LegacyUser(
    emailAddress: string,
    password: Option<string>,
    username: Option<string>,
    signUpTimestamp: Option<string>,
    loginTimes: int,
    sessionTimestamp: Option<string>)

  /** How the strategy calls `done`: with an error, with `false` and a
      message, or with the created row. */
  datatype Done = Failed | Refused(message: string) | SignedUp(user: LegacyUser)

  /** Some row holds the address. */
  predicate HasEmail(rows: seq<LegacyUser>, emailAddress: string)
  {
    exists i :: 0 <= i < |rows| && rows[i].emailAddress == emailAddress
  }

  /** No two rows hold the same address. */
  predicate EmailsUnique(rows: seq<LegacyUser>)
  {
    forall i, j :: 0 <= i < j < |rows| ==> rows[i].emailAddress != rows[j].emailAddress
  }

  /** The row the strategy creates. */
  function NewLegacyUser(emailAddress: string, password: string, now: string): LegacyUser
  {
    LegacyUser(emailAddress, Some(password), Some(emailAddress), Some(now), 0, None)
  }

  /** Appending a row with a new address keeps addresses unique. */
  lemma AppendNewEmail(rows: seq<LegacyUser>, u: LegacyUser)
    requires EmailsUnique(rows) && !HasEmail(rows, u.emailAddress)
    ensures EmailsUnique(rows + [u])
    ensures HasEmail(rows + [u], u.emailAddress)
  {
    var after := rows + [u];
    forall i, j | 0 <= i < j < |after| ensures after[i].emailAddress != after[j].emailAddress {
      if j == |rows| {
        assert after[i] == rows[i];
      } else {
        assert after[i] == rows[i] && after[j] == rows[j];
      }
    }
    assert after[|rows|] == u;
  }

  class LegacyUserTable {
    /** The rows, in insertion order. */
    var rows: seq<LegacyUser>

    /** A table holding `initial`. */
    constructor (initial: seq<LegacyUser>)
      ensures rows == initial
    {
      rows := initial;
    }

    /** The `local-signup` verify callback. A failing lookup or insert ends
        in `done(err)`. */
    method LocalSignup(emailAddress: string, password: string, now: string, f: Faults) returns (d: Done)
      modifies this
      ensures f.lookup ==> d == Failed && rows == old(rows)
      ensures !f.lookup && HasEmail(old(rows), emailAddress) ==>
        d == Refused("EmailAddressTaken") && rows == old(rows)
      ensures !f.lookup && !HasEmail(old(rows), emailAddress) && f.write ==> d == Failed && rows == old(rows)
      ensures !f.lookup && !HasEmail(old(rows), emailAddress) && !f.write ==>
        && d == SignedUp(NewLegacyUser(emailAddress, password, now))
        && rows == old(rows) + [d.user]
      // a store failure never signs anyone up; existing rows never change
      ensures f.lookup || f.write ==> !d.SignedUp?
      ensures |old(rows)| <= |rows| <= |old(rows)| + 1 && rows[..|old(rows)|] == old(rows)
      ensures d.SignedUp? <==> |rows| == |old(rows)| + 1
      ensures EmailsUnique(old(rows)) ==> EmailsUnique(rows)
    {
      if f.lookup {
        return Failed;
      }
      if HasEmail(rows, emailAddress) {
        return Refused("EmailAddressTaken");
      }
      if f.write {
        return Failed;
      }
      var u := NewLegacyUser(emailAddress, password, now);
      if EmailsUnique(rows) {
        AppendNewEmail(rows, u);
      }
      rows := rows + [u];
      d := SignedUp(u);
    }
  }
}
