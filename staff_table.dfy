/** The `staff` table of the SQLite file: its rows and its declared columns. */
module StaffTable {
  import opened Values
  import opened PasswordUtils

  /** What the `password` column holds: hashed bytes (a BLOB), plain text, or NULL. */
  datatype Stored = Hashed(bytes: seq<byte>) | Plain(text: string) | Null

  datatype StaffRow = StaffRow(
    staffId: nat,
    username: string,
    password: Stored,
    firstName: string,
    lastName: string,
    email: string,
    position: string,
    department: string,
    isAdmin: int,
    isActive: int,
    createdAt: Option<string>,
    lastLogin: Option<string>)

  datatype ColumnType = IntegerColumn | TextColumn

  /** The twelve columns a staff table must have. */
  const RequiredColumns: set<string> :=
    {"staff_id", "username", "password", "first_name", "last_name", "email", "position",
     "department", "is_admin", "is_active", "created_at", "last_login"}

  /** The columns as the `CREATE TABLE staff` statements declare them. */
  const DeclaredColumns: map<string, ColumnType> :=
    map["staff_id" := IntegerColumn, "username" := TextColumn, "password" := TextColumn,
        "first_name" := TextColumn, "last_name" := TextColumn, "email" := TextColumn,
        "position" := TextColumn, "department" := TextColumn, "is_admin" := IntegerColumn,
        "is_active" := IntegerColumn, "created_at" := TextColumn, "last_login" := TextColumn]

  /** The type a missing column is added with: INTEGER for the two flags, TEXT otherwise. */
  function RepairType(column: string): ColumnType {
    if column == "is_admin" || column == "is_active" then IntegerColumn else TextColumn
  }

  /** `staff_id` is the primary key and `username` is UNIQUE. */
  predicate UniqueKeys(rows: seq<StaffRow>) {
    (forall i, j :: 0 <= i < j < |rows| ==> rows[i].staffId != rows[j].staffId)
    && (forall i, j :: 0 <= i < j < |rows| ==> rows[i].username != rows[j].username)
  }

  predicate IdsBelow(rows: seq<StaffRow>, next: nat) {
    forall i :: 0 <= i < |rows| ==> rows[i].staffId < next
  }

  predicate UsernameTaken(rows: seq<StaffRow>, username: string) {
    exists i :: 0 <= i < |rows| && rows[i].username == username
  }
}
