/** The login decision of the staff and admin dialogs, over the rows of the
    `staff` table. */
module StaffLogin {
  import opened Values
  import opened Text
  import opened PasswordUtils
  import opened StaffTable

  datatype Login = MissingCredentials | Rejected(message: string) | LoggedIn(staff: StaffRow)


  /** The staff dialog and the admin dialog word their rejection differently. */
  function RejectMessage(admin: bool): string {
    if admin then "Invalid admin credentials" else "Invalid username or password"
  }

  /** The row `SELECT * FROM staff WHERE username = ? AND is_admin = ?` fetches
      first: the earliest row with that username and admin flag. */
  function FirstAccount(rows: seq<StaffRow>, username: string, isAdmin: int): (k: Option<nat>)
    ensures k.Some? ==> k.value < |rows| && rows[k.value].username == username && rows[k.value].isAdmin == isAdmin
                        && forall j :: 0 <= j < k.value ==> !(rows[j].username == username && rows[j].isAdmin == isAdmin)
    ensures k.None? ==> forall j :: 0 <= j < |rows| ==> !(rows[j].username == username && rows[j].isAdmin == isAdmin)
    decreases |rows|
  {
    if rows == [] then None
    else if rows[0].username == username && rows[0].isAdmin == isAdmin then Some(0)
    else
      var k := FirstAccount(rows[1..], username, isAdmin);
      if k.Some? then Some(k.value + 1) else None
  }

  /** Bytes are checked with `verify_password`, anything else by equality, which a NULL never passes. */
  function Authenticated(stored: Stored, password: string, kdf: Kdf): (ok: bool)
    ensures stored.Hashed? ==> ok == VerifyPassword(stored.bytes, password, kdf)
    ensures stored.Plain? ==> (ok <==> stored.text == password)
    ensures stored.Null? ==> !ok
  {
    match stored
    case Hashed(b) => VerifyPassword(b, password, kdf)
    case Plain(t) => t == password
    case Null => false
  }

  /** `attempt_login`: the stripped username and the password must both be
      non-empty; the dialog looks only at rows with its own admin flag, and logs
      in exactly when the first such row's password is the one typed. */
  function AttemptLogin(rows: seq<StaffRow>, usernameText: string, password: string, admin: bool, kdf: Kdf): (r: Login)
    ensures r == MissingCredentials <==> Strip(usernameText) == "" || password == ""
    ensures r.Rejected? ==> r.message == RejectMessage(admin)
    ensures r.LoggedIn? <==>
              Strip(usernameText) != "" && password != ""
              && var k := FirstAccount(rows, Strip(usernameText), if admin then 1 else 0);
                 k.Some? && Authenticated(rows[k.value].password, password, kdf)
    ensures r.LoggedIn? ==>
              r.staff in rows && r.staff.username == Strip(usernameText) && r.staff.isAdmin == (if admin then 1 else 0)
  {
    var username := Strip(usernameText);
    if username == "" || password == "" then MissingCredentials
    else
      var k := FirstAccount(rows, username, if admin then 1 else 0);
      if k.None? then Rejected(RejectMessage(admin))
      else if Authenticated(rows[k.value].password, password, kdf) then LoggedIn(rows[k.value])
      else Rejected(RejectMessage(admin))
  }

  /** With unique usernames, the account with that username is the one found. */
  lemma UniqueAccount(rows: seq<StaffRow>, i: nat, isAdmin: int)
    requires UniqueKeys(rows) && i < |rows| && rows[i].isAdmin == isAdmin
    ensures FirstAccount(rows, rows[i].username, isAdmin) == Some(i)
  {
  }

  /** Whoever set a password with `hash_password` can log in with it, through the
      dialog that matches the account's admin flag. */
  lemma LoginAfterHash(rows: seq<StaffRow>, i: nat, password: string, salt: Option<Salt>, drawn: Salt, kdf: Kdf, admin: bool)
    requires UniqueKeys(rows) && i < |rows|
    requires rows[i].isAdmin == (if admin then 1 else 0)
    requires rows[i].password == Hashed(HashPassword(password, salt, drawn, kdf))
    requires Strip(rows[i].username) == rows[i].username != "" && password != ""
    ensures AttemptLogin(rows, rows[i].username, password, admin, kdf) == LoggedIn(rows[i])
  {
    UniqueAccount(rows, i, if admin then 1 else 0);
    HashThenVerify(password, salt, drawn, kdf);
  }

  /** An admin account never logs in through the staff dialog, nor a staff
      account through the admin dialog. */
  lemma DialogsSeparate(rows: seq<StaffRow>, usernameText: string, password: string, admin: bool, kdf: Kdf)
    ensures var r := AttemptLogin(rows, usernameText, password, admin, kdf);
            r.LoggedIn? ==> (r.staff.isAdmin == 1 <==> admin)
  {
  }

  /** `is_active` plays no part: deactivating the account that would log in
      still lets it log in. */
  lemma {:induction false} ActiveIgnored(rows: seq<StaffRow>, i: nat, isActive: int, usernameText: string, password: string,
                                         admin: bool, kdf: Kdf)
    requires i < |rows|
    ensures var before := AttemptLogin(rows, usernameText, password, admin, kdf);
            var after := AttemptLogin(rows[i := rows[i].(isActive := isActive)], usernameText, password, admin, kdf);
            (after.LoggedIn? <==> before.LoggedIn?) && (!before.LoggedIn? ==> after == before)
  {
    SameAccount(rows, i, isActive, Strip(usernameText), if admin then 1 else 0);
  }

  /** Changing a column other than the username and the admin flag does not move the first match. */
  lemma {:induction false} SameAccount(rows: seq<StaffRow>, i: nat, isActive: int, username: string, isAdmin: int)
    requires i < |rows|
    ensures FirstAccount(rows[i := rows[i].(isActive := isActive)], username, isAdmin) == FirstAccount(rows, username, isAdmin)
    decreases |rows|
  {
    var rows' := rows[i := rows[i].(isActive := isActive)];
    if i > 0 {
      assert rows'[1..] == rows[1..][i - 1 := rows[i].(isActive := isActive)];
      SameAccount(rows[1..], i - 1, isActive, username, isAdmin);
    } else {
      assert rows'[1..] == rows[1..];
    }
  }
}
