/** The script that creates the `staff` table with one sample account, or adds
    the columns an existing `staff` table lacks. */
module StaffSchema {
  import opened Values
  import opened Text
  import opened PasswordUtils
  import opened StaffTable
  import opened StaffLogin
  import SqliteDb

  /** The sample account inserted with a new table: a non-admin teacher whose
      password is stored as plain text; `is_active` takes its default 1. */
  function SampleStaff(staffId: nat, now: string): StaffRow {
    StaffRow(staffId, "staff1", Plain("password123"), "John", "Doe", "john.doe@school.edu",
             "Teacher", "STEM", 0, 1, Some(now), None)
  }

  /** The columns after the repair: every existing column keeps its type, and each
      required column that is missing is added with its repair type. */
  function Repaired(columns: map<string, ColumnType>): (r: map<string, ColumnType>)
    ensures r.Keys == columns.Keys + RequiredColumns
    ensures forall c :: c in columns ==> r[c] == columns[c]
    ensures forall c :: c in RequiredColumns && c !in columns ==> r[c] == RepairType(c)
  {
    map c | c in columns.Keys + RequiredColumns :: if c in columns then columns[c] else RepairType(c)
  }

  /** A second repair adds nothing. */
  lemma RepairIdempotent(columns: map<string, ColumnType>)
    ensures Repaired(Repaired(columns)) == Repaired(columns)
  {
    var r := Repaired(columns);
    assert Repaired(r).Keys == r.Keys;
  }

  /** A table created with the declared columns needs no repair. */
  lemma DeclaredComplete()
    ensures Repaired(DeclaredColumns) == DeclaredColumns
  {
    assert DeclaredColumns.Keys == RequiredColumns;
  }

  /** The sample account logs in through the staff dialog with the password the
      script gives it, and not through the admin dialog. */
  lemma SampleLogsIn(staffId: nat, now: string, kdf: Kdf)
    ensures AttemptLogin([SampleStaff(staffId, now)], "staff1", "password123", false, kdf)
            == LoggedIn(SampleStaff(staffId, now))
    ensures AttemptLogin([SampleStaff(staffId, now)], "staff1", "password123", true, kdf).Rejected?
  {
    var rows := [SampleStaff(staffId, now)];
    UniqueAccount(rows, 0, 0);
    assert Strip("staff1") == "staff1" by { StripBlank("staff1"); }
  }

  /** A map that agrees with `Repaired(columns)` at every column is that map. */
  lemma RepairedPointwise(columns: map<string, ColumnType>, r: map<string, ColumnType>)
    requires forall c :: c in r <==> c in columns || c in RequiredColumns - columns.Keys
    requires forall c :: c in columns ==> r[c] == columns[c]
    requires forall c :: c in RequiredColumns - columns.Keys ==> r[c] == RepairType(c)
    ensures r == Repaired(columns)
  {
    var w := Repaired(columns);
    assert r.Keys == w.Keys;
  }

  /** The loop over the missing columns: `ALTER TABLE staff ADD COLUMN` for each,
      in whatever order the set yields them. */
  method AddMissingColumns(columns: map<string, ColumnType>, missing: set<string>) returns (r: map<string, ColumnType>)
    requires forall c :: c in missing ==> c !in columns
    ensures forall c :: c in r <==> c in columns || c in missing
    ensures forall c :: c in columns ==> r[c] == columns[c]
    ensures forall c :: c in missing ==> r[c] == RepairType(c)
  {
    var todo := missing;
    r := columns;
    while todo != {}
      invariant todo <= missing
      invariant forall c :: c in r <==> c in columns || (c in missing && c !in todo)
      invariant forall c :: c in columns ==> r[c] == columns[c]
      invariant forall c :: c in missing && c !in todo ==> r[c] == RepairType(c)
      decreases |todo|
    {
      var column :| column in todo;
      r := r[column := RepairType(column)];
      todo := todo - {column};
    }
  }

  /** `initialize_staff_table`: without a staff table, create it with the
      declared columns and insert the sample account; with one, add the missing
      required columns and touch no row. It reports the columns it added. */
  method InitializeStaffTable(store: SqliteDb.SqliteStore, now: string) returns (added: set<string>)
    requires store.Valid()
    modifies store`schema, store`staff, store`nextStaffId
    ensures store.Valid()
    ensures SqliteDb.Staff in store.schema.tables
    ensures store.schema.tables == old(store.schema.tables) + {SqliteDb.Staff}
    ensures SqliteDb.Staff !in old(store.schema.tables) ==>
              store.schema.staffColumns == DeclaredColumns && added == {}
              && store.staff == [SampleStaff(old(store.nextStaffId), now)]
              && store.nextStaffId == old(store.nextStaffId) + 1
    ensures SqliteDb.Staff in old(store.schema.tables) ==>
              store.schema.staffColumns == Repaired(old(store.schema.staffColumns))
              && added == RequiredColumns - old(store.schema.staffColumns).Keys
              && store.staff == old(store.staff) && store.nextStaffId == old(store.nextStaffId)
  {
    if SqliteDb.Staff !in store.schema.tables {
      store.schema := store.schema.(tables := store.schema.tables + {SqliteDb.Staff}, staffColumns := DeclaredColumns);
      store.staff := [SampleStaff(store.nextStaffId, now)];
      store.nextStaffId := store.nextStaffId + 1;
      added := {};
    } else {
      added := RequiredColumns - store.schema.staffColumns.Keys;
      var columns := AddMissingColumns(store.schema.staffColumns, added);
      RepairedPointwise(store.schema.staffColumns, columns);
      store.schema := store.schema.(staffColumns := columns);
    }
  }
}
