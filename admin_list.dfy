/** The two operations of the admin dashboard that change the databases: saving
    a staff member from the staff dialog, and deleting a student from both
    stores. */
module AdminList {
  import opened Values
  import opened Text
  import opened PasswordUtils
  import opened StaffTable
  import opened StaffLogin
  import opened Registry
  import SqliteDb
  import MysqlDb

  /** The texts of the staff dialog's fields, as typed. */
  datatype StaffFields = StaffFields(
    username: string, password: string, firstName: string, lastName: string, email: string,
    position: string, department: string, isAdminChoice: string)

  /** What `save_staff` works with: the username, names and email stripped, the
      password as typed, the two combo texts, and the admin flag. */
  datatype StaffInput = StaffInput(
    username: string, password: string, firstName: string, lastName: string, email: string,
    position: string, department: string, isAdmin: int)

  /** `1 if is_admin == "Yes" else 0` */
  function AdminFlag(choice: string): (flag: int)
    ensures flag == 1 <==> choice == "Yes"
    ensures flag == 0 <==> choice != "Yes"
  {
    if choice == "Yes" then 1 else 0
  }

  function ReadFields(f: StaffFields): StaffInput {
    StaffInput(Strip(f.username), f.password, Strip(f.firstName), Strip(f.lastName), Strip(f.email),
               f.position, f.department, AdminFlag(f.isAdminChoice))
  }

  /** The validation warnings `save_staff` shows. */
  datatype Warning = MissingFields | MissingPassword | UsernameExists(username: string)

  /** The statement failures `save_staff` reports as a database error. */
  datatype DbFailure = NoStaffTable | DuplicateUsername

  /** How `save_staff` ends: a validation warning, a saved row, or a database error. */
  datatype StaffSave = Invalid(warning: Warning) | Saved(staffId: nat) | DbError(failure: DbFailure)

  /** What a save returns, with the staff rows and the id counter it leaves. */
  datatype StaffOutcome = StaffOutcome(result: StaffSave, rows: seq<StaffRow>, nextStaffId: nat)

  /** The text the password field shows for an existing account; saving it keeps the password. */
  const MaskedPassword := "********"

  /** The text of the warning box. */
  function WarningText(w: Warning): string {
    match w
    case MissingFields => "Username, first name, and last name are required."
    case MissingPassword => "Password is required for new staff members."
    case UsernameExists(username) => "Username '" + username + "' already exists."
  }

  /** The text of the error box: the message of the exception the statement raised. */
  function ErrorText(e: DbFailure): string {
    "Failed to save staff: " + match e
      case NoStaffTable => "no such table: staff"
      case DuplicateUsername => "UNIQUE constraint failed: staff.username"
  }

  /** `self.staff_id` is truthy: the dialog edits an existing account. */
  predicate Editing(editing: Option<nat>) {
    editing.Some? && editing.value != 0
  }

  /** The new column values of an `UPDATE staff`; the password is absent when it stays. */
  datatype StaffEdit = StaffEdit(
    username: string, password: Option<Stored>, firstName: string, lastName: string, email: string,
    position: string, department: string, isAdmin: int)

  function EditOf(i: StaffInput, drawn: Salt, kdf: Kdf): StaffEdit {
    StaffEdit(i.username,
              if i.password == MaskedPassword then None else Some(Hashed(HashPassword(i.password, None, drawn, kdf))),
              i.firstName, i.lastName, i.email, i.position, i.department, i.isAdmin)
  }

  function Apply(row: StaffRow, e: StaffEdit): StaffRow {
    row.(username := e.username, password := if e.password.Some? then e.password.value else row.password,
         firstName := e.firstName, lastName := e.lastName, email := e.email, position := e.position,
         department := e.department, isAdmin := e.isAdmin)
  }

  /** `UPDATE staff SET ... WHERE staff_id = ?` */
  function UpdateWhere(rows: seq<StaffRow>, id: nat, e: StaffEdit): (r: seq<StaffRow>)
    ensures |r| == |rows|
    ensures forall k :: 0 <= k < |rows| ==> r[k] == if rows[k].staffId == id then Apply(rows[k], e) else rows[k]
  {
    seq(|rows|, k requires 0 <= k < |rows| => if rows[k].staffId == id then Apply(rows[k], e) else rows[k])
  }

  /** Another account than `id` already has this username. */
  predicate UsernameHeldByOther(rows: seq<StaffRow>, username: string, id: nat) {
    exists k :: 0 <= k < |rows| && rows[k].username == username && rows[k].staffId != id
  }

  /** Some row has the staff id. */
  predicate HasStaffId(rows: seq<StaffRow>, id: nat) {
    exists k :: 0 <= k < |rows| && rows[k].staffId == id
  }

  /** The `UPDATE` of account `id` would give it a username another account
      holds, which the UNIQUE constraint refuses. With no row of that id the
      statement changes no row and so refuses nothing. */
  predicate UpdateClashes(rows: seq<StaffRow>, username: string, id: nat) {
    HasStaffId(rows, id) && UsernameHeldByOther(rows, username, id)
  }

  /** The row an `INSERT INTO staff` adds: hashed password, `created_at` now,
      `is_active` by its column default, no last login. */
  function NewStaffRow(id: nat, i: StaffInput, drawn: Salt, kdf: Kdf, now: string): StaffRow {
    StaffRow(id, i.username, Hashed(HashPassword(i.password, None, drawn, kdf)), i.firstName, i.lastName, i.email,
             i.position, i.department, i.isAdmin, 1, Some(now), None)
  }

  /** The validation `save_staff` does before it opens the database. */
  function Validate(editing: Option<nat>, i: StaffInput): (w: Option<Warning>)
    ensures w == Some(MissingFields) <==> i.username == "" || i.firstName == "" || i.lastName == ""
    ensures w == Some(MissingPassword) <==>
              i.username != "" && i.firstName != "" && i.lastName != "" && !Editing(editing) && i.password == ""
    ensures w == None || w == Some(MissingFields) || w == Some(MissingPassword)
  {
    if i.username == "" || i.firstName == "" || i.lastName == "" then Some(MissingFields)
    else if !Editing(editing) && i.password == "" then Some(MissingPassword)
    else None
  }

  /** `save_staff` on the rows of the staff table: validation, then the insert
      of a new account or the update of an existing one. */
  function SaveStaffOutcome(rows: seq<StaffRow>, next: nat, hasTable: bool, editing: Option<nat>, i: StaffInput,
                            drawn: Salt, kdf: Kdf, now: string): StaffOutcome
  {
    if Validate(editing, i).Some? then StaffOutcome(Invalid(Validate(editing, i).value), rows, next)
    else if !hasTable then StaffOutcome(DbError(NoStaffTable), rows, next)
    else if !Editing(editing) then
      if UsernameTaken(rows, i.username) then StaffOutcome(Invalid(UsernameExists(i.username)), rows, next)
      else StaffOutcome(Saved(next), rows + [NewStaffRow(next, i, drawn, kdf, now)], next + 1)
    else if UpdateClashes(rows, i.username, editing.value) then
      StaffOutcome(DbError(DuplicateUsername), rows, next)
    else StaffOutcome(Saved(editing.value), UpdateWhere(rows, editing.value, EditOf(i, drawn, kdf)), next)
  }

  /** A warning or an error changes nothing. The field checks come first, then
      the table, then the username: a taken one refuses a new account with a
      warning, and makes the update of an existing one fail on the UNIQUE
      constraint. */
  lemma SaveStaffRefusals(rows: seq<StaffRow>, next: nat, hasTable: bool, editing: Option<nat>, i: StaffInput,
                          drawn: Salt, kdf: Kdf, now: string)
    ensures var o := SaveStaffOutcome(rows, next, hasTable, editing, i, drawn, kdf, now);
            (!o.result.Saved? ==> o.rows == rows && o.nextStaffId == next)
            && (Validate(editing, i).Some? ==> o.result == Invalid(Validate(editing, i).value))
            && (Validate(editing, i).None? && !hasTable ==> o.result == DbError(NoStaffTable))
            && (Validate(editing, i).None? && hasTable && !Editing(editing) && UsernameTaken(rows, i.username) ==>
                  o.result == Invalid(UsernameExists(i.username)))
            && (Validate(editing, i).None? && hasTable && Editing(editing)
                && UpdateClashes(rows, i.username, editing.value) ==>
                  o.result == DbError(DuplicateUsername))
            && (o.result.Saved? <==>
                  Validate(editing, i).None? && hasTable
                  && (if Editing(editing) then !UpdateClashes(rows, i.username, editing.value)
                      else !UsernameTaken(rows, i.username)))
  {
  }

  /** A new account is appended under the next id, with the dialog's values,
      the hashed password, `is_active` 1, `created_at` now and no last login. */
  lemma SaveStaffInserts(rows: seq<StaffRow>, next: nat, i: StaffInput, drawn: Salt, kdf: Kdf, now: string)
    requires SaveStaffOutcome(rows, next, true, None, i, drawn, kdf, now).result.Saved?
    ensures var o := SaveStaffOutcome(rows, next, true, None, i, drawn, kdf, now);
            o.result.staffId == next && o.nextStaffId == next + 1
            && o.rows == rows + [StaffRow(next, i.username, Hashed(HashPassword(i.password, None, drawn, kdf)),
                                          i.firstName, i.lastName, i.email, i.position, i.department, i.isAdmin,
                                          1, Some(now), None)]
  {
  }

  /** An edit rewrites, on the rows with that id, every column the dialog shows;
      the password stays when the field still shows the mask and is replaced by
      the hash of whatever else it holds. Every other row, and every other
      column, stays. */
  lemma SaveStaffUpdates(rows: seq<StaffRow>, next: nat, id: nat, i: StaffInput, drawn: Salt, kdf: Kdf, now: string)
    requires id != 0 && SaveStaffOutcome(rows, next, true, Some(id), i, drawn, kdf, now).result.Saved?
    ensures var o := SaveStaffOutcome(rows, next, true, Some(id), i, drawn, kdf, now);
            o.result.staffId == id && o.nextStaffId == next && |o.rows| == |rows|
            && forall k :: 0 <= k < |rows| ==>
                 o.rows[k] == if rows[k].staffId != id then rows[k]
                              else rows[k].(username := i.username, firstName := i.firstName, lastName := i.lastName,
                                            email := i.email, position := i.position, department := i.department,
                                            isAdmin := i.isAdmin,
                                            password := if i.password == MaskedPassword then rows[k].password
                                                        else Hashed(HashPassword(i.password, None, drawn, kdf)))
  {
  }

  /** Editing an account no row has runs an `UPDATE` that matches nothing: the
      save succeeds and every row stays, whatever username was typed. */
  lemma SaveStaffMissingId(rows: seq<StaffRow>, next: nat, id: nat, i: StaffInput, drawn: Salt, kdf: Kdf, now: string)
    requires id != 0 && Validate(Some(id), i).None? && !HasStaffId(rows, id)
    ensures SaveStaffOutcome(rows, next, true, Some(id), i, drawn, kdf, now) == StaffOutcome(Saved(id), rows, next)
  {
    var r := UpdateWhere(rows, id, EditOf(i, drawn, kdf));
    assert forall k :: 0 <= k < |rows| ==> rows[k].staffId != id;
    assert r == rows;
  }

  /** Every save keeps the primary key and the UNIQUE username, and the id counter above every id. */
  lemma SaveStaffKeepsKeys(rows: seq<StaffRow>, next: nat, hasTable: bool, editing: Option<nat>, i: StaffInput,
                           drawn: Salt, kdf: Kdf, now: string)
    requires UniqueKeys(rows) && IdsBelow(rows, next)
    ensures var o := SaveStaffOutcome(rows, next, hasTable, editing, i, drawn, kdf, now);
            UniqueKeys(o.rows) && IdsBelow(o.rows, o.nextStaffId)
  {
    var o := SaveStaffOutcome(rows, next, hasTable, editing, i, drawn, kdf, now);
    if o.result.Saved? {
      if !Editing(editing) {
        InsertKeepsKeys(rows, next, NewStaffRow(next, i, drawn, kdf, now));
      } else {
        UpdateKeepsKeys(rows, next, editing.value, EditOf(i, drawn, kdf));
      }
    }
  }

  lemma InsertKeepsKeys(rows: seq<StaffRow>, next: nat, n: StaffRow)
    requires n.staffId == next && !UsernameTaken(rows, n.username)
    ensures UniqueKeys(rows) && IdsBelow(rows, next) ==> UniqueKeys(rows + [n]) && IdsBelow(rows + [n], next + 1)
  {
    var s := rows + [n];
    if UniqueKeys(rows) && IdsBelow(rows, next) {
      forall i, j | 0 <= i < j < |s| ensures s[i].staffId != s[j].staffId && s[i].username != s[j].username {
        if j == |rows| {
          assert s[i] == rows[i];
        } else {
          assert s[i] == rows[i] && s[j] == rows[j];
        }
      }
    }
  }

  lemma UpdateKeepsKeys(rows: seq<StaffRow>, next: nat, id: nat, e: StaffEdit)
    requires !UpdateClashes(rows, e.username, id)
    ensures UniqueKeys(rows) && IdsBelow(rows, next) ==>
              UniqueKeys(UpdateWhere(rows, id, e)) && IdsBelow(UpdateWhere(rows, id, e), next)
  {
    var s := UpdateWhere(rows, id, e);
    if UniqueKeys(rows) && IdsBelow(rows, next) {
      forall i, j | 0 <= i < j < |s| ensures s[i].username != s[j].username {
      }
    }
  }

  /** `StaffDialog.save_staff` on the SQLite file's staff table. */
  method SaveStaff(store: SqliteDb.SqliteStore, editing: Option<nat>, f: StaffFields, drawn: Salt, kdf: Kdf, now: string)
    returns (r: StaffSave)
    requires store.Valid()
    modifies store`staff, store`nextStaffId
    ensures store.Valid()
    ensures StaffOutcome(r, store.staff, store.nextStaffId)
            == SaveStaffOutcome(old(store.staff), old(store.nextStaffId), SqliteDb.Staff in store.schema.tables,
                                editing, ReadFields(f), drawn, kdf, now)
  {
    var input := ReadFields(f);
    if input.username == "" || input.firstName == "" || input.lastName == "" {
      return Invalid(MissingFields);
    }
    if !Editing(editing) && input.password == "" {
      return Invalid(MissingPassword);
    }
    if SqliteDb.Staff !in store.schema.tables {
      return DbError(NoStaffTable);
    }
    if !Editing(editing) {
      if UsernameTaken(store.staff, input.username) {
        return Invalid(UsernameExists(input.username));
      }
      var id := store.nextStaffId;
      InsertKeepsKeys(store.staff, id, NewStaffRow(id, input, drawn, kdf, now));
      store.staff := store.staff + [NewStaffRow(id, input, drawn, kdf, now)];
      store.nextStaffId := id + 1;
      return Saved(id);
    }
    if UpdateClashes(store.staff, input.username, editing.value) {
      return DbError(DuplicateUsername);
    }
    UpdateKeepsKeys(store.staff, store.nextStaffId, editing.value, EditOf(input, drawn, kdf));
    store.staff := UpdateWhere(store.staff, editing.value, EditOf(input, drawn, kdf));
    return Saved(editing.value);
  }

  /** A new account logs in through the dialog of its admin flag with the
      username and password it was saved with. */
  lemma NewStaffLogsIn(rows: seq<StaffRow>, next: nat, f: StaffFields, drawn: Salt, kdf: Kdf, now: string)
    requires UniqueKeys(rows) && IdsBelow(rows, next)
    requires SaveStaffOutcome(rows, next, true, None, ReadFields(f), drawn, kdf, now).result.Saved?
    ensures var o := SaveStaffOutcome(rows, next, true, None, ReadFields(f), drawn, kdf, now);
            AttemptLogin(o.rows, f.username, f.password, f.isAdminChoice == "Yes", kdf) == LoggedIn(o.rows[|rows|])
  {
    var i := ReadFields(f);
    var o := SaveStaffOutcome(rows, next, true, None, i, drawn, kdf, now);
    SaveStaffKeepsKeys(rows, next, true, None, i, drawn, kdf, now);
    SaveStaffInserts(rows, next, i, drawn, kdf, now);
    UniqueAccount(o.rows, |rows|, i.isAdmin);
    HashThenVerify(f.password, None, drawn, kdf);
  }

  /** An edit that types a new password lets the edited account log in with it. */
  lemma EditedPasswordLogsIn(rows: seq<StaffRow>, next: nat, k: nat, f: StaffFields, drawn: Salt, kdf: Kdf, now: string)
    requires UniqueKeys(rows) && IdsBelow(rows, next) && k < |rows| && rows[k].staffId != 0
    requires f.password != MaskedPassword && f.password != ""
    requires SaveStaffOutcome(rows, next, true, Some(rows[k].staffId), ReadFields(f), drawn, kdf, now).result.Saved?
    ensures var o := SaveStaffOutcome(rows, next, true, Some(rows[k].staffId), ReadFields(f), drawn, kdf, now);
            AttemptLogin(o.rows, f.username, f.password, f.isAdminChoice == "Yes", kdf) == LoggedIn(o.rows[k])
  {
    var i := ReadFields(f);
    var o := SaveStaffOutcome(rows, next, true, Some(rows[k].staffId), i, drawn, kdf, now);
    SaveStaffKeepsKeys(rows, next, true, Some(rows[k].staffId), i, drawn, kdf, now);
    SaveStaffUpdates(rows, next, rows[k].staffId, i, drawn, kdf, now);
    UniqueAccount(o.rows, k, i.isAdmin);
    HashThenVerify(f.password, None, drawn, kdf);
  }

  /** Adding the same account twice: the second save is refused with the taken-username warning. */
  lemma AddTwiceRejected(rows: seq<StaffRow>, next: nat, i: StaffInput, drawn: Salt, drawn2: Salt, kdf: Kdf,
                         now: string, now2: string)
    requires SaveStaffOutcome(rows, next, true, None, i, drawn, kdf, now).result.Saved?
    ensures var o := SaveStaffOutcome(rows, next, true, None, i, drawn, kdf, now);
            SaveStaffOutcome(o.rows, o.nextStaffId, true, None, i, drawn2, kdf, now2)
            == StaffOutcome(Invalid(UsernameExists(i.username)), o.rows, o.nextStaffId)
  {
    var o := SaveStaffOutcome(rows, next, true, None, i, drawn, kdf, now);
    assert o.rows[|rows|].username == i.username;
  }

  /** How `delete_student` ends. */
  datatype DeleteResult = NotFound | DeleteFailed(message: string) | Deleted

  /** What a deletion reports, with the registration tables of both stores afterwards. */
  datatype Deletion = Deletion(result: DeleteResult, sqlite: SqliteDb.Registrations, mysql: MysqlDb.Registrations)

  const NoStudentsTableMessage := "no such table: students"

  /** The first element satisfying `p`, as `fetchone` returns it. */
  function FirstWhere<T>(rows: seq<T>, p: T -> bool): (k: Option<nat>)
    ensures k.Some? ==> k.value < |rows| && p(rows[k.value]) && forall j :: 0 <= j < k.value ==> !p(rows[j])
    ensures k.None? ==> forall j :: 0 <= j < |rows| ==> !p(rows[j])
    decreases |rows|
  {
    if rows == [] then None
    else if p(rows[0]) then Some(0)
    else
      var k := FirstWhere(rows[1..], p);
      if k.Some? then Some(k.value + 1) else None
  }

  /** The MySQL half: the row with the same reference code, deleted with its
      details by `ON DELETE CASCADE`; a store that cannot be reached, or has no
      such row, is left as it is. */
  function MysqlDeleted(m: MysqlDb.Registrations, reachable: bool, code: Value): (r: MysqlDb.Registrations)
    ensures !reachable ==> r == m
    ensures forall next :: Consistent(m, next) ==> Consistent(r, next)
    ensures reachable && MysqlDb.CodeTaken(m, code) ==>
              exists j :: 0 <= j < |m.students| && MysqlDb.CodeMatches(m.students[j].row, code)
                          && r == DeleteCascade(m, m.students[j].studentId)
    ensures !MysqlDb.CodeTaken(m, code) ==> r == m
  {
    if !reachable then m
    else
      var j := FirstWhere(m.students, (k: Keyed<MysqlDb.StudentRow>) => MysqlDb.CodeMatches(k.row, code));
      if j.None? then m else DeleteCascade(m, m.students[j.value].studentId)
  }

  /** `delete_student` with the detail rows removed together with the student,
      which is what the comment beside the SQLite delete promises. When no
      SQLite row has the id nothing changes in either store. Otherwise the
      student and its details go from SQLite, and the MySQL row that has the same
      reference code goes too when MySQL can be reached; the result never
      depends on MySQL. */
  function DeleteOutcome(sqliteHasStudents: bool, s: SqliteDb.Registrations, mysqlReachable: bool,
                         m: MysqlDb.Registrations, id: nat): (d: Deletion)
    ensures d.result == (if !sqliteHasStudents then DeleteFailed(NoStudentsTableMessage)
                         else if id in Ids(s.students) then Deleted else NotFound)
    ensures !d.result.Deleted? ==> d.sqlite == s && d.mysql == m
    ensures d.result.Deleted? ==>
              d.sqlite == DeleteCascade(s, id)
              && exists i :: 0 <= i < |s.students| && s.students[i].studentId == id
                             && d.mysql == MysqlDeleted(m, mysqlReachable, s.students[i].row.referenceCode)
    ensures sqliteHasStudents ==> Ids(d.sqlite.students) == Ids(s.students) - {id}
    ensures forall next :: Consistent(s, next) ==> Consistent(d.sqlite, next)
    ensures forall next :: Consistent(m, next) ==> Consistent(d.mysql, next)
  {
    if !sqliteHasStudents then
      Deletion(DeleteFailed(NoStudentsTableMessage), s, m)
    else
      var i := FirstWhere(s.students, (k: Keyed<SqliteDb.StudentRow>) => k.studentId == id);
      if i.None? then Deletion(NotFound, s, m)
      else
        var code := s.students[i.value].row.referenceCode;
        Deletion(Deleted, DeleteCascade(s, id), MysqlDeleted(m, mysqlReachable, code))
  }

  /** Deleting the same student twice: the second attempt finds nothing and changes nothing. */
  lemma DeleteTwice(s: SqliteDb.Registrations, mysqlReachable: bool, m: MysqlDb.Registrations, id: nat, reachable2: bool)
    requires id in Ids(s.students)
    ensures var d := DeleteOutcome(true, s, mysqlReachable, m, id);
            DeleteOutcome(true, d.sqlite, reachable2, d.mysql, id) == Deletion(NotFound, d.sqlite, d.mysql)
  {
  }

  /** `AdminDashboard.delete_student`, after the user confirmed. */
  method DeleteStudent(sqlite: SqliteDb.SqliteStore, mysql: MysqlDb.MysqlServer, id: nat, mysqlConnects: bool)
    returns (r: DeleteResult)
    requires sqlite.Valid() && mysql.Valid()
    modifies sqlite`registrations, mysql`registrations
    ensures sqlite.Valid() && mysql.Valid()
    ensures Deletion(r, sqlite.registrations, mysql.registrations)
            == DeleteOutcome(SqliteDb.Students in sqlite.schema.tables, old(sqlite.registrations),
                             mysqlConnects && mysql.databaseExists && MysqlDb.Students in mysql.tables,
                             old(mysql.registrations), id)
  {
    if SqliteDb.Students !in sqlite.schema.tables {
      return DeleteFailed(NoStudentsTableMessage);
    }
    var i := FirstWhere(sqlite.registrations.students, (k: Keyed<SqliteDb.StudentRow>) => k.studentId == id);
    if i.None? {
      return NotFound;
    }
    var code := sqlite.registrations.students[i.value].row.referenceCode;
    sqlite.registrations := DeleteCascade(sqlite.registrations, id);
    if mysqlConnects && mysql.databaseExists && MysqlDb.Students in mysql.tables {
      var j := FirstWhere(mysql.registrations.students, (k: Keyed<MysqlDb.StudentRow>) => MysqlDb.CodeMatches(k.row, code));
      if j.Some? {
        mysql.registrations := DeleteCascade(mysql.registrations, mysql.registrations.students[j.value].studentId);
      }
    }
    return Deleted;
  }
}
