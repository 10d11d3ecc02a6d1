# OwlReg student registration: storage engine, staff login and admin tools

This project models the part of the OwlReg-Pablo registration system that keeps records. A student's
registration form has four sections: personal, family, academic and emergency. A coordinator saves
the form to a local SQLite file first and to a MySQL server second. Both stores turn the form into
four rows (`students`, `family_background`, `academic_profile`, `emergency_contacts`) and write them
in one transaction. Around this path sit:

- staff and admin login over the `staff` table;
- salted password hashing;
- the confirmation page's family summary and its once-only submit button;
- the dashboards' student list, search and strand chart;
- the admin dialog that saves staff accounts, and the admin action that deletes a student from both stores;
- two maintenance scripts: one hashes stored plain-text passwords, the other creates or repairs the `staff` table.

How the model is built:

- Each module follows one source file.
- Pure rules are functions with lemmas.
- The stores, the coordinator and the confirmation page are classes. Their methods change fields and say what they
  change.
- Each stateful method is tied to an outcome function of the old state (`SaveOutcome`, `TransactionOutcome`,
  `SaveStaffOutcome`, `DeleteOutcome`, `Migrated`, `Repaired`), and the lemmas are proved about those functions.
- The clock, random draws, date parsing, PBKDF2, the availability of the database file and the MySQL server, and any
  statement that raises are all parameters.

Modules (one per file):

- `Values`: form leaves (`str` or `bool`), Python truthiness, and ordered dicts.
- `Text`: ASCII `isdigit`, `int`, `str`, `:04d`, `lower`, `title` and `in`, and `strip` over all of Python's whitespace.
- `Forms`: the form and the adapters' return triple.
- `FamilyRules`: the `family_background` row.
- `Registry`: the four registration tables, and the "every student has all of its detail rows" invariant.
- `SqliteDb`, `MysqlDb`: the two stores.
- `DbManager`: the coordinator.
- `PasswordUtils`: password hashing.
- `StaffTable`, `StaffLogin`: the staff table and the login decision.
- `StudentList`: the dashboards' student list.
- `AdminList`: staff save and student delete.
- `Confirmation`: the confirmation page.
- `PasswordMigration`, `StaffSchema`: the two maintenance scripts.

Behaviour of the code that the model keeps, though a reader might expect otherwise:

- A skipped parent only has its name blanked. Its age, ethnicity, occupation and education are still stored.
- MySQL stores a blank emergency `contact_name` as blank. It falls back to "Not specified" only when the key is absent.
- The LRN that MySQL stores is always the (LRN or reference code) + "_" + Unix time. The earlier `LRN{timestamp}`
  assignment is overwritten.
- A `FLUSH TABLES` that raises after MySQL's commit reports failure, yet the rows stay committed, and the rollback in the
  handler undoes nothing.
- The students' auto-increment value that MySQL consumed is not given back by a rollback, nor when a UNIQUE key refuses
  the `students` row.
- MySQL's UNIQUE keys and `WHERE reference_code = %s` compare under the server's default collation, which ignores
  letter case and trailing blanks. SQLite compares exactly.
- A `create_database` failure inside SQLite's `test_connection` is ignored: the test still returns True.

## Model

| member | source | states |
|---|---|---|
| Values.Put | db_manager.py:113-115 | `d[k] = v`: the key now maps to the value. Every other key is unchanged. A new key goes last and an existing key keeps its place. |
| Text.Decimal | mysql_db.py:263-265 | `str(n)` is a non-empty digit string with no leading zero. |
| Text.DecimalRoundTrip | sqlite_db.py:253-255 | `int(str(n)) == n`, so an age typed as digits reads back as its number. |
| Text.DecimalInjective | mysql_db.py:404-405 | Different numbers print differently. |
| Text.TenDigitTimestamp | mysql_db.py:263-270 | Every Unix time from 10^9 up to 10^10 prints with exactly ten digits. |
| Text.Pad4Digits | dashboard_login.py:882 | `f"{n:04d}"` is at least four digits, equals `str(n)` when that is already four long, and reads back as `n`. |
| Text.StripBlank | dashboard_login.py:182-187 | A stripped text is empty exactly when the input was all whitespace, as `str.isspace` defines it. Otherwise it starts and ends with a non-space. |
| Text.StripLeftDrops | dashboard_login.py:182 | `lstrip` removes exactly the leading whitespace. |
| Text.StripRightDrops | dashboard_login.py:182 | `rstrip` removes exactly the trailing whitespace. |
| Text.ContainsEmpty | dashboard_login.py:922 | The empty term occurs in every text. |
| Text.DigitsDrawn | mysql_db.py:263-265 | The digits of the timestamp belong to the alphabet A-Z0-9. |
| Forms.Failed | sqlite_db.py:167 | A failure triple reports no success and no student id. |
| Forms.WithReferenceCode | db_manager.py:113-115 | The write-back sets `personal["reference_code"]` to the code and touches no other key or section. A missing `personal` becomes a dict holding only the code. |
| Forms.EnrollmentType | sqlite_db.py:206 | "Transferee" exactly when `is_transferee` is truthy, else "Freshmen". Always one of the two ENUM values. |
| FamilyRules.ParentName | sqlite_db.py:239-249 | The name is blank exactly when the parent is skipped, and a missing `skipped` counts as skipped. Otherwise it is first name, one space, last name. |
| FamilyRules.AgeOf | sqlite_db.py:252-255 | An age is `int(age)` for a digit string and 0 for any other string. A `bool` age raises. |
| FamilyRules.Ages | sqlite_db.py:252-259 | The three ages share one `try`: if any of them raises, all three are 0. |
| FamilyRules.AgeStored | mysql_db.py:464-467 | An age typed as the digits of n is stored as n. |
| FamilyRules.SkippedParentKeepsDetails | sqlite_db.py:239-241 | Skipping the father blanks his name, but his ethnicity, occupation and education are still stored. |
| Registry.Without | admin_list.py:751 | `DELETE ... WHERE student_id = ?` leaves exactly the rows of the other ids. |
| Registry.Register | sqlite_db.py:229-330 | One registration adds one row to each of the four tables under the new id. It keeps every student complete and the counter above every id. |
| Registry.DeleteCascade | mysql_db.py:187-215 | A delete under `ON DELETE CASCADE` removes the student and all of its detail rows, and keeps the tables complete. |
| Registry.DeleteStudentRowOnly | sqlite_db.py:86-87 | A delete without cascade removes only the `students` row and leaves every detail table as it was. |
| Registry.RowOnlyDeleteOrphansDetails | admin_list.py:750-751 | On a one-student registry, deleting only the student row leaves the tables incomplete. |
| SqliteDb.CreateAll | sqlite_db.py:16-123 | `create_database` adds all five tables. An existing staff table keeps its columns and a new one gets the declared columns. |
| SqliteDb.CreateAllIdempotent | sqlite_db.py:25 | `IF NOT EXISTS`: creating a second time changes nothing. |
| SqliteDb.GenerateReferenceCode | sqlite_db.py:125-131 | The code is exactly ten characters: "REF" followed by the seven drawn characters, all from A-Z0-9. |
| SqliteDb.ReferenceCodeFor | sqlite_db.py:178-183 | A truthy incoming code is used verbatim. Otherwise a code is generated. The result is always truthy. |
| SqliteDb.Registered | sqlite_db.py:209-330 | The four rows of a save keep the tables consistent under the next id. |
| SqliteDb.Commit | sqlite_db.py:193-341 | The transaction succeeds exactly when the code is free (the UNIQUE constraint) and nothing raises. Success stores the rows under the next id. Failure stores nothing and returns the exception's message with no id. |
| SqliteDb.SaveOutcome | sqlite_db.py:159-353 | A save succeeds exactly when the connection test, the creation, the connect and the transaction all succeed. Each earlier failure has its fixed message. Every failure leaves the tables unchanged. |
| SqliteDb.SqliteStore.CreateDatabase | sqlite_db.py:16-123 | It returns whether the file opened, the schema becomes `CreateAll` of the old one, and no rows change. |
| SqliteDb.Prepared | sqlite_db.py:145-171 | A test that cannot open the file changes nothing. A save's own successful creation gives `CreateAll`. When that creation fails, only the test's recovery creation, run for a file without `students`, can have changed the schema. |
| SqliteDb.SqliteStore.TestConnection | sqlite_db.py:133-157 | It returns True whenever the file opens, even when `students` was missing. In that case it calls `create_database` and ignores its result: the tables exist afterwards only if that call succeeded. |
| SqliteDb.SqliteStore.SaveRegistration | sqlite_db.py:159-353 | The returned triple and the new tables and counter are `SaveOutcome` of the old ones. The schema is `Prepared` of the old one, so a failed recovery creation leaves no tables behind. The staff table is untouched. |
| SqliteDb.SqliteStore.Transaction | sqlite_db.py:186-341 | Begin, four inserts, commit or roll back: the triple and the tables are `Commit` of the old ones. |
| MysqlDb.GenerateReferenceCode | mysql_db.py:260-272 | The code starts with 'R', has at most ten characters, and every character is from A-Z0-9. |
| MysqlDb.TenDigitReferenceCode | mysql_db.py:263-270 | For a ten-digit time the code is 'R', the last six digits of the time and the first three drawn characters, ten in all. |
| MysqlDb.SameSecondCollision | mysql_db.py:269-270 | Two codes drawn in the same second whose first three drawn characters agree are equal. |
| MysqlDb.OrDefault | mysql_db.py:388-394 | A blank or missing field takes the default and a truthy one is kept, so the stored value is always truthy. |
| MysqlDb.ReferenceCodeFor | mysql_db.py:336-338 | A truthy incoming code is used verbatim. An empty or missing one is replaced by the code `generate_reference_code` gives. The result is always truthy. |
| MysqlDb.Birthday | mysql_db.py:372-382 | A blank birth date and an unparsable one become "2000-01-01". A parsable one is stored in its normalised form. A `True` value raises. |
| MysqlDb.Year | mysql_db.py:507-513 | A year is kept only when it is a non-empty digit string. Otherwise it is NULL. A `True` value raises. |
| MysqlDb.UnderscoreSplit | mysql_db.py:405 | Splitting at an underscore followed only by digits is unambiguous. |
| MysqlDb.LrnInjective | mysql_db.py:397-405 | The stored LRN determines the base (LRN or code) and the time it was built from. |
| MysqlDb.StudentRowOf | mysql_db.py:385-438 | Truthy names, mobile number and strand are kept. Blank ones become "Unknown", "00000000000" and "Select...". The row carries the given reference code, birthday and the LRN of `Lrn`. The optional columns hold the form's values, with civil status "Single" when absent. Every NOT NULL column is truthy. |
| MysqlDb.SessionOf | mysql_db.py:416-418 | A truthy session is kept. A blank or missing one becomes "Morning". |
| MysqlDb.EmergencyRowOf | mysql_db.py:543-560 | A truthy relationship, address and number are kept. Blank ones become "Not specified", "Not specified" and "00000000000". The name defaults to "Not specified" only when the key is absent, and any given name, blank included, is stored as given. |
| MysqlDb.FirstDecisive | mysql_db.py:62-100 | It finds the first of the three attempts that connects or hands over to `create_database`, and none exists only when all three fail. |
| MysqlDb.MysqlServer.CreateDatabase | mysql_db.py:105-258 | The database is created when the server connects. All six tables are added when the database connect also succeeds, and the result is True exactly then. No rows change. |
| MysqlDb.MysqlServer.TestMysqlConnection | mysql_db.py:52-103 | With no server it returns False without sleeping. Otherwise it makes up to three attempts and sleeps at most twice. It returns True at a ping on the existing database. It returns `create_database()` on an unknown database or a working fallback connection. After three failures it returns False with the schema unchanged. |
| MysqlDb.MysqlServer.SaveRegistration | mysql_db.py:274-592 | The probe, the database check that creates a missing database, and the connection come first. A failed check is only printed, so the database connection's own error is what a save reports. The triple and the new tables and counter are `SaveOutcome` of the old ones. |
| MysqlDb.MysqlServer.Session | mysql_db.py:316-586 | The connection is opened, the transaction is run and the connection is closed on every path. The result is `TransactionOutcome` of the old state. |
| MysqlDb.MysqlServer.Transaction | mysql_db.py:350-582 | The statements from `begin` to `FLUSH TABLES`, with the rollback: the result is `TransactionOutcome` of the old state. A duplicate key on the `students` insert uses up an id. |
| MysqlDb.TransactionOutcome | mysql_db.py:336-582 | Success exactly when no statement up to the flush raises, returning the code and the next id. The rows are stored exactly when the commit is reached, so a failing flush reports failure for stored rows. The counter advances exactly when the `students` insert reached the row write (`IdConsumed`): it inserted the row, or a UNIQUE key refused it. The value is not given back by the rollback. |
| MysqlDb.SaveOutcome | mysql_db.py:274-592 | "MySQL server not running" is returned before any insert. A failed database check is only printed; the database connection then fails with its own error, or with "Unknown database" when it raises only because the database is missing. After a good connection the outcome is the transaction's. Success returns `(True, ref_code, student_id)` with the code used and the next id. A save stores either nothing or the committed rows, stores nothing without a `students` table, and keeps the tables consistent. |
| MysqlDb.DuplicateEntryMessage | mysql_db.py:589-592 | The `str(e)` of a duplicate key starts with code 1062 and names the duplicated value. |
| MysqlDb.TrimTrailingBlanks | mysql_db.py:146-149 | Only trailing blanks go, and the rest is a prefix of the text ending in a non-blank. |
| MysqlDb.CollationExamples | mysql_db.py:146-149 | Under the default collation an LRN in another case and a code with trailing blanks are the same key, while different codes are not. |
| MysqlDb.DuplicateFailure | mysql_db.py:144-149 | The `students` insert fails on a UNIQUE key exactly when the code or the LRN is taken under the collation. The reference code's key is reported before the LRN's, each with its own value, when the insert at lines 360-441 runs. |
| MysqlDb.TransactionFailure | mysql_db.py:372-567 | Nothing raises before the flush exactly when the tables exist, the birthday and both years convert, the code and LRN are free, and no statement faults. |
| MysqlDb.LaterFailure | mysql_db.py:504-567 | The statements after the `students` insert succeed exactly when their tables exist, both years convert and none of them faults. |
| MysqlDb.Registered | mysql_db.py:441-563 | The four rows of a save keep the tables consistent under the next id. |
| MysqlDb.Committed | mysql_db.py:567 | The committed tables stay consistent. |
| DbManager.EntryOf | db_manager.py:99-103 | A returned triple is recorded field by field, and a raised exception as an error entry. |
| DbManager.SaveAll | db_manager.py:77-151 | Success exactly when some configured store succeeded. The code and id come from SQLite when it succeeded with a code, and from MySQL otherwise. With no success both stay None. MySQL sees the form with SQLite's code written back. There is one `results` entry per configured store. |
| DbManager.FirstStop | db_manager.py:179-192 | It finds the first of three MySQL tests that connects or raises, and none exists only when all three return False. |
| DbManager.DatabaseManager.constructor | db_manager.py:31-47 | SQLite is used when asked and available. MySQL is used whenever it is available, whatever the argument says. |
| DbManager.DatabaseManager.CreateDatabases | db_manager.py:49-75 | There is one entry per configured store, holding the store's result or False when it raised. |
| DbManager.DatabaseManager.SaveRegistration | db_manager.py:77-151 | The four returned values and the caller's form afterwards are `SaveAll` of the old form. |
| DbManager.DatabaseManager.TestConnections | db_manager.py:153-212 | SQLite is tested once and repaired when the test returns False. MySQL is tested at most three times, stopping at the first test that connects or raises, with one sleep between tests. `create_database` is called only when all three failed, and its result becomes the entry. |
| PasswordUtils.HashPassword | password_utils.py:4-16 | The stored value starts with the salt (the given one, or the 32 drawn bytes) and continues with PBKDF2 of the password under that salt. |
| PasswordUtils.VerifyPassword | password_utils.py:18-30 | True exactly when PBKDF2 of the password under the first 32 bytes equals the rest, whatever salt length was used to create it. |
| PasswordUtils.HashThenVerify | password_utils.py:4-30 | A password verifies against its own hash for every 32-byte salt. |
| PasswordUtils.VerifyOtherPassword | password_utils.py:23-30 | Another password verifies exactly when the derivation cannot tell it from the original. |
| PasswordUtils.ConvertRoundTrip | password_utils.py:32-38 | Converting to binary and back, in either order, gives the stored value unchanged. |
| StaffLogin.FirstAccount | dashboard_login.py:198-203 | It finds the first row with the username and the dialog's admin flag, and none exists only when no row has both. |
| StaffLogin.Authenticated | dashboard_login.py:214-228 | Bytes are checked with `verify_password` and plain text by equality. NULL never matches. |
| StaffLogin.AttemptLogin | dashboard_login.py:180-260 | A blank stripped username or an empty password is refused before any lookup. Login succeeds exactly when the first row with the username and the dialog's flag holds the password. That row is the one logged into. Each dialog words its rejection its own way. |
| StaffLogin.UniqueAccount | dashboard_login.py:198-201 | With unique usernames, the row holding the username is the one found. |
| StaffLogin.LoginAfterHash | dashboard_login.py:214-221 | An account whose password was set with `hash_password` logs in with that password through the dialog of its flag. |
| StaffLogin.DialogsSeparate | dashboard_login.py:374-377 | An admin account never logs in through the staff dialog, and a staff account never through the admin dialog. |
| StaffLogin.ActiveIgnored | dashboard_login.py:198-201 | `is_active` plays no part: changing it changes no login. |
| StudentList.OrText | dashboard_login.py:894 | `x or default` is the value when it is truthy and the default otherwise. |
| StudentList.StudentNumberShape | dashboard_login.py:882 | A student number is "ST-" followed by at least four digits. |
| StudentList.StudentNumberRoundTrip | dashboard_login.py:882 | The digits of a student number read back as the id. |
| StudentList.StudentNumberInjective | dashboard_login.py:882 | Different ids show different student numbers. |
| StudentList.DisplayNameParts | dashboard_login.py:887-889 | The name starts with the first name. A middle name shows as " X." and an extension ends the name after a space. Without them the name is "first last". |
| StudentList.DisplayParts | dashboard_login.py:882-905 | The row shows the student number. A missing status shows as "Freshmen", a missing strand as "N/A" and a missing date as "N/A". The date is cut to its first ten characters. |
| StudentList.PopulateStudentTable | admin_list.py:525-568 | One displayed row per listing, in order. |
| StudentList.Filter | dashboard_login.py:915-926 | The filtering loop never keeps more rows than it was given. |
| StudentList.FilterMembers | dashboard_login.py:915-926 | A row is kept exactly when it is listed and accepted. |
| StudentList.KeptMembers | dashboard_login.py:922-926 | A row is kept exactly when it is listed and matches both the name and the strand condition. |
| StudentList.FilterAppend | dashboard_login.py:915-926 | The filter distributes over concatenation, so kept rows stay in listing order. |
| StudentList.KeptAll | dashboard_login.py:922-923 | An empty term with "All Strands" keeps every row. |
| StudentList.EmptyTermMatches | dashboard_login.py:922 | An empty term fails no row on the name, so only the strand decides. |
| StudentList.FilterIdempotent | admin_list.py:598-617 | Filtering the result again with the same condition changes nothing. |
| StudentList.FilterStudents | admin_list.py:598-617 | The loop's result is `Kept` of the listing under the lowered term. |
| StudentList.MissingDefaults | dashboard_login.py:978-982 | At most one added strand per default. |
| StudentList.MissingDefaultsMembers | dashboard_login.py:978-982 | A strand is added exactly when it is a default the query did not return. |
| StudentList.MissingDefaultsDistinct | dashboard_login.py:978-982 | Distinct defaults are each added at most once. |
| StudentList.OnlyStemPadded | dashboard_login.py:978-982 | With only STEM returned, ICT, ABM and GAS follow once each, in that order. |
| StudentList.PadStrands | dashboard_login.py:970-982 | The queried strands keep their order and counts. The tail is exactly `MissingDefaults`: each of STEM, ICT, ABM and GAS that the query did not return, once and in that order, with count 0. So all four appear, and the two lists stay the same length. |
| AdminList.AdminFlag | admin_list.py:125 | `is_admin` is 1 exactly when the combo shows "Yes", and 0 otherwise. |
| AdminList.UpdateWhere | admin_list.py:160-176 | `UPDATE ... WHERE staff_id = ?` rewrites the rows with that id and no other row. |
| AdminList.Validate | admin_list.py:128-134 | A blank username, first name or last name is refused. Then a new account with an empty password is refused. Nothing else is. |
| AdminList.SaveStaffRefusals | admin_list.py:128-176 | The order of refusals: the fields, then a missing table, then a taken username. A new account gets a warning. An edit fails on the UNIQUE constraint only when a row has the edited id and another row holds the username. Every refusal changes nothing, and the save succeeds exactly when none applies. |
| AdminList.SaveStaffMissingId | admin_list.py:155-204 | Editing an id no row has updates nothing and succeeds with every row unchanged, whatever username was typed. |
| AdminList.SaveStaffInserts | admin_list.py:177-189 | A new account is appended under the next id with the typed values and the hashed password. `is_active` is 1, `created_at` is now and there is no last login. |
| AdminList.SaveStaffUpdates | admin_list.py:155-176 | An edit rewrites every shown column of the rows with that id. The password stays when the field shows "********" and is otherwise replaced by its hash. Other rows and columns stay. |
| AdminList.SaveStaffKeepsKeys | admin_list.py:144-189 | Every save keeps `staff_id` and `username` unique and the id counter above every id. |
| AdminList.SaveStaff | admin_list.py:115-208 | The result and the new staff rows and counter are `SaveStaffOutcome` of the old ones. |
| AdminList.NewStaffLogsIn | admin_list.py:179-187 | A saved new account logs in with the username and password it was typed with, through the dialog of its flag. |
| AdminList.EditedPasswordLogsIn | admin_list.py:167-176 | After an edit that types a new password, the account logs in with it. |
| AdminList.AddTwiceRejected | admin_list.py:144-149 | Adding the same username a second time is refused with the "already exists" warning and changes nothing. |
| AdminList.FirstWhere | admin_list.py:741-742 | It finds the first row a `fetchone` query returns, and none exists only when no row matches. |
| AdminList.MysqlDeleted | admin_list.py:756-781 | An unreachable MySQL is left as it is. Otherwise the row whose reference code equals the SQLite row's under the collation goes with its details (`ON DELETE CASCADE`), and no such row means no change. |
| AdminList.DeleteOutcome | admin_list.py:734-786 | Without a `students` table the delete fails. An id that is not found changes neither store. Otherwise the SQLite student goes, together with its details (corrected: see Findings), and then the MySQL row with its reference code. The result never depends on MySQL, and both stores stay consistent. |
| AdminList.DeleteTwice | admin_list.py:741-746 | A second delete of the same id finds nothing and changes nothing. |
| AdminList.DeleteStudent | admin_list.py:725-789 | The result and both stores afterwards are `DeleteOutcome` of the old stores. |
| Confirmation.FieldLabel | form5_confirmation.py:238 | A label starts with the parent's word and a space. |
| Confirmation.Shown | form5_confirmation.py:237-240 | A truthy value is shown as is and a falsy one as 'N/A'. |
| Confirmation.ParentSummary | form5_confirmation.py:227-242 | A parent that is empty, skipped or lacks `skipped` contributes only '<Parent> Information': 'N/A'. |
| Confirmation.FieldShown | form5_confirmation.py:235-240 | Every field other than `first_name`, `last_name` and `skipped` is shown under its label with its value or 'N/A', unless a later field takes the same label. |
| Confirmation.FieldsIntoOther | form5_confirmation.py:235-240 | The loop over a parent's fields writes only under labels of that parent's own fields. |
| Confirmation.ParentSummaryOther | form5_confirmation.py:226-280 | A parent writes only under its own prefix. |
| Confirmation.ParentNameShown | form5_confirmation.py:230-232 | A non-skipped parent with a non-blank stripped "first last" shows it as '<Parent> Name'. |
| Confirmation.SkippedFatherShown | form5_confirmation.py:241-242 | In the whole summary, an empty or skipped father shows as 'Father Information': 'N/A', whatever the others hold. |
| Confirmation.MotherIndependent | form5_confirmation.py:244-260 | The summary's "Mother ..." entries depend on the mother's dict alone. |
| Confirmation.SummaryFrom | form5_confirmation.py:226-280 | A parent's entries do not depend on what was added before it. |
| Confirmation.ProcessFamilyData | form5_confirmation.py:222-280 | The method's result is the family summary of father, mother and guardian in that order. |
| Confirmation.AddParent | form5_confirmation.py:227-242 | The block for one parent adds exactly that parent's entries. |
| Confirmation.CreateSection | form5_confirmation.py:205-218 | An empty dict shows one "No data provided." row. Otherwise there is one row per key, in insertion order. |
| Confirmation.ConfirmationForm.constructor | form5_confirmation.py:14-20 | A new page holds the empty form, is not submitted, and its button reads "Submit" and is enabled. |
| Confirmation.ConfirmationForm.UpdateData | form5_confirmation.py:91-95 | New data replaces the form and leaves the submit state alone. |
| Confirmation.ConfirmationForm.OnSubmit | form5_confirmation.py:282-294 | The first click sets `submitted`, disables the button and emits once. Later clicks emit nothing, so at most one signal is ever emitted. |
| PasswordMigration.PlainCountBounds | hash_all_passwords.py:38-57 | The number updated never exceeds the rows, and it is 0 exactly when no row holds plain text. |
| PasswordMigration.SetPasswordWhere | hash_all_passwords.py:52-55 | `UPDATE staff SET password = ? WHERE staff_id = ?` changes the password of the rows with that id and nothing else. |
| PasswordMigration.MigratedRows | hash_all_passwords.py:41-60 | The migration keeps every row, their order and every column but the password. Plain text becomes its hash under the row's salt. Bytes and NULL stay. |
| PasswordMigration.MigrateTwice | hash_all_passwords.py:41-57 | After a run no plain text is left, so a second run updates nothing and changes nothing. |
| PasswordMigration.MigratedKeepsUnique | hash_all_passwords.py:52-55 | Ids and usernames stay unique. |
| PasswordMigration.MigratedKeepsIdsBelow | hash_all_passwords.py:52-55 | Ids stay below the counter. |
| PasswordMigration.PlainLogsIn | dashboard_login.py:225-227 | Before the migration a plain-text password logs in by equality. |
| PasswordMigration.MigratedLogsIn | hash_all_passwords.py:48-57 | Whoever logged in with a plain-text password logs into the same account with it after the migration. |
| PasswordMigration.MigrateRows | hash_all_passwords.py:38-60 | The loop's rows are `Migrated` of the fetched ones, and the count is the number of plain-text rows. |
| PasswordMigration.HashAllPasswords | hash_all_passwords.py:10-74 | False with no change when the table is missing or empty. Otherwise every plain-text row is hashed, the rest are kept, and it returns True with the count. |
| StaffSchema.Repaired | create_staff_table.py:50-65 | The repaired columns are the old ones plus the required ones. Old columns keep their types, and `is_admin` and `is_active` are added as INTEGER and every other column as TEXT. |
| StaffSchema.RepairIdempotent | create_staff_table.py:53-65 | A second repair adds nothing. |
| StaffSchema.DeclaredComplete | create_staff_table.py:21-36 | The created table already has all twelve required columns. |
| StaffSchema.SampleLogsIn | create_staff_table.py:39-43 | The sample account "staff1" logs in through the staff dialog with "password123", and not through the admin dialog. |
| StaffSchema.AddMissingColumns | create_staff_table.py:62-65 | The loop adds each missing column with its type and keeps every existing column. |
| StaffSchema.InitializeStaffTable | create_staff_table.py:8-68 | Without the table it is created with the declared columns and exactly one sample non-admin row. With the table, only the missing required columns are added: no column is removed and no row is inserted. |

## Left out

- Screens, styles, layouts, signals and navigation of the PyQt pages are not modelled. The confirmation page, dashboards and
  dialogs appear only through their data logic.
- The form pages and the keys they emit are not modelled. Each adapter is modelled against the keys it reads:
  `juniorhs_*`, `contact_name` and `contact_no`.
- The socket probe of port 3306 is a boolean parameter, because it is network I/O.
- `time.time`, `datetime.now`, `random.choices` and `os.urandom` are parameters: the clock and randomness.
- `time.sleep` is counted, not performed.
- `strptime` is a parameter function from text to an optional normalised date.
- PBKDF2-HMAC-SHA256 is an uninterpreted function parameter (`Kdf`), and the UTF-8 encoding is folded into it.
- SQL text, driver behaviour and SQLite's type affinity are not modelled. A statement that raises is described by a fault
  parameter holding its message.
- MySQL's ENUM and strict-mode rejections are not modelled: every value the model stores is a valid one.
- Text functions `isdigit`, `lower` and `title` work on ASCII only. There is no Unicode case mapping and there are
  no Unicode digits. `strip` removes exactly the characters Python's `str.isspace` accepts.
- The coordinator treats the two store modules as oracles (`Form -> Call<SaveReturn>`). How they connect to the store
  classes is not formalised beyond each store's own `SaveOutcome`.
- DbManager.DatabaseManager.TestConnections does not model the result of the SQLite recovery `create_database` call. It
  leaves the entry False, as the code does, but the schema change lives in `SqliteStore.TestConnection`.
- The background staff sync thread (admin_list.py:196-202, 210-221) is left out: it is concurrency, and the `db_sync`
  module it calls is not part of this model.
- create_admin_account.py and create_mysql_users.py are not part of this model. They are insert-if-absent scripts with
  fixed literals.
- The marker file of hash_all_passwords.py:70-72 is not modelled, because it is file output.
- The outer `except` of hash_all_passwords.py:76-78 is not modelled: the connections never fail in the migration model.
- The `Login error` path of attempt_login (dashboard_login.py:252-255) is left out: a missing staff table raises there.
  StaffLogin.AttemptLogin is given the rows of an existing table.
- The `StaffDashboard.display_student_details` and `search_by_ref_code` screens are not modelled: they only display rows.
- The chart drawing and the metric labels of `update_dashboard_metrics` are not modelled. Only the strand padding is.
- StaffSchema.InitializeStaffTable gives the sample account the store's next staff id. AUTOINCREMENT details, such as
  never reusing a deleted id, are not modelled.
- StaffSchema.AddMissingColumns processes the missing set in an arbitrary order, because Python's set iteration order
  is not specified. The result does not depend on the order.
- StaffSchema.Repaired models NOT NULL and DEFAULT only through the declared types. Column constraints are not tracked.
- MysqlDb.MysqlServer.TestMysqlConnection folds the "connection without a database" check into the attempt outcome
  `Refused(withoutDatabase)`. It does not model the error codes other than 1049.
- MysqlDb.DuplicateFailure words the duplicate key as MariaDB (the XAMPP server) does: the column name, such as
  'reference_code'. MySQL 8 prefixes the table name ('students.reference_code'). The model does not shorten a long value
  in the message as the server may.
- MysqlDb.CodeTaken models the default collation only as ASCII case folding plus ignored trailing blanks. Its folding of
  accented and other non-ASCII letters is not modelled.
- SqliteDb.SqliteStore.CreateDatabase treats `create_database` as all or nothing. A failure part-way through the five
  `CREATE TABLE` statements, each of which takes effect on its own, is not modelled.
- MysqlDb.StudentRowOf does not model column widths, such as `VARCHAR(50)` for the reference code or `VARCHAR(10)` for
  the extension.
- AdminList.SaveStaff reports the two statement failures a save can hit (a missing table and a duplicate username on
  update). Other driver errors are not modelled.
- Values.Put models a dict keyed by strings only. Non-string keys do not occur in the forms.

## Findings

| source | as written | input that shows it | evidently intended | confidence | as-written member | corrected member |
|---|---|---|---|---|---|---|
| admin_list.py:750-751 | The comment says "cascade delete will handle related tables", but the SQLite schema declares its foreign keys without `ON DELETE CASCADE` (sqlite_db.py:86, 101, 114) and never enables foreign keys. So `DELETE FROM students` removes only the student row. | One registered student with id 1, then `delete_student(1)`: its `family_background`, `academic_profile` and `emergency_contacts` rows stay behind with no student. | The student and its three detail rows go together, as they do in MySQL (mysql_db.py:187, 202, 215). | not executed | Registry.RowOnlyDeleteOrphansDetails | AdminList.DeleteOutcome |
