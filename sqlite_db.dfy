/** The SQLite store: one database file holding the four registration tables and
    the staff table. The file's availability, the clock and the random draw are
    parameters; a failing statement is described by a fault. */
module SqliteDb {
  import opened Values
  import opened Text
  import opened Forms
  import opened Registry
  import opened FamilyRules
  import opened StaffTable

  datatype Table = Students | Staff | FamilyBackground | AcademicProfile | EmergencyContacts

  const AllTables: set<Table> := {Students, Staff, FamilyBackground, AcademicProfile, EmergencyContacts}

  /** Which tables exist, and the staff table's columns (empty while it does not exist). */
  datatype Schema = Schema(tables: set<Table>, staffColumns: map<string, ColumnType>)

  /** `create_database`: `CREATE TABLE IF NOT EXISTS` for all five tables. */
  function CreateAll(s: Schema): (r: Schema)
    ensures r.tables == s.tables + AllTables
    ensures Staff in s.tables ==> r.staffColumns == s.staffColumns
    ensures Staff !in s.tables ==> r.staffColumns == DeclaredColumns
  {
    Schema(s.tables + AllTables, if Staff in s.tables then s.staffColumns else DeclaredColumns)
  }

  /** Creating the tables a second time changes nothing. */
  lemma CreateAllIdempotent(s: Schema)
    ensures CreateAll(CreateAll(s)) == CreateAll(s)
  {
  }

  datatype StudentRow = StudentRow(
    referenceCode: Value, firstName: Value, lastName: Value, middleName: Value, extension: Value,
    lrn: Value, enrollmentType: string, strand: Value, preferredSession: Value, birthday: Value,
    civilStatus: Value, religion: Value, mobileNo: Value, telephoneNo: Value, ethnicity: Value,
    address: string, registrationDate: string)

  datatype AcademicRow = AcademicRow(
    elementarySchool: Value, elemYearGraduated: Value, elemHonors: Value,
    juniorhsSchool: Value, jhsYearGraduated: Value, jhsHonors: Value)

  datatype EmergencyRow = EmergencyRow(contactName: Value, relationship: Value, address: Value, contactNo: Value)

  type Registrations = Tables<StudentRow, FamilyRow, AcademicRow, EmergencyRow>

  /** `generate_reference_code`: "REF" followed by seven characters drawn from A-Z0-9. */
  function GenerateReferenceCode(draw: string): (code: string)
    requires |draw| == 7 && DrawnFrom(draw, UpperDigits)
    ensures |code| == 10 && code[..3] == "REF" && code[3..] == draw
    ensures DrawnFrom(code, UpperDigits)
  {
    "REF" + draw
  }

  /** The form's own reference code when it is truthy, a generated one otherwise. */
  function ReferenceCodeFor(personal: Dict, draw: string): (code: Value)
    requires |draw| == 7 && DrawnFrom(draw, UpperDigits)
    ensures Truthy(code)
    ensures forall v :: Lookup(personal, "reference_code") == Some(v) && Truthy(v) ==> code == v
    ensures !Truthy(Get(personal, "reference_code", Text(""))) ==> code == Text(GenerateReferenceCode(draw))
  {
    var given := Get(personal, "reference_code", Text(""));
    if Truthy(given) then given else Text(GenerateReferenceCode(draw))
  }

  /** The `students` row: every personal value stored as given, with its default. */
  function StudentRowOf(p: Dict, code: Value, now: string): StudentRow {
    StudentRow(code, Get(p, "first_name", Text("")), Get(p, "last_name", Text("")),
               Get(p, "middle_name", Text("")), Get(p, "extension", Text("")), Get(p, "lrn", Text("")),
               EnrollmentType(p), Get(p, "strand", Text("")), Get(p, "session", Text("Morning")),
               Get(p, "birth_date", Text("")), Get(p, "civil_status", Text("Single")),
               Get(p, "religion", Text("")), Get(p, "mobile", Text("")), Get(p, "telephone", Text("")),
               Get(p, "ethnicity", Text("")), Address(p), now)
  }

  function AcademicRowOf(a: Dict): AcademicRow {
    AcademicRow(Get(a, "elementary_school", Text("")), Get(a, "elementary_year", Text("")),
                Get(a, "elementary_honors", Text("")), Get(a, "juniorhs_school", Text("")),
                Get(a, "juniorhs_year", Text("")), Get(a, "juniorhs_honors", Text("")))
  }

  function EmergencyRowOf(e: Dict): EmergencyRow {
    EmergencyRow(Get(e, "contact_name", Text("")), Get(e, "relationship", Text("")),
                 Get(e, "address", Text("")), Get(e, "contact_no", Text("")))
  }

  /** The rows one registration adds under `id`. */
  function Registered(t: Registrations, id: nat, form: Form, code: Value, now: string): (r: Registrations)
    ensures Consistent(t, id) ==> Consistent(r, id + 1)
  {
    Register(t, id, StudentRowOf(form.personal, code, now), FamilyRowOf(form.family),
             AcademicRowOf(form.academic), EmergencyRowOf(form.emergency))
  }

  /** The `reference_code` column is UNIQUE. */
  predicate CodeTaken(t: Registrations, code: Value) {
    exists i :: 0 <= i < |t.students| && t.students[i].row.referenceCode == code
  }

  /** What the environment decides during one `save_registration` call. */
  datatype SaveEnv = SaveEnv(
    testOpens: bool,      // test_connection can open and query the file
    recoveryCreates: bool, // the create_database that test_connection calls on a file without students succeeds
    createOpens: bool,    // create_database can open the file
    connectOpens: bool,   // the save's own connection opens
    draw: string,         // the seven characters random.choices would return
    now: string,          // datetime.now(), formatted
    fault: Option<string>) // the message of a statement in the transaction that raises, if any

  const DuplicateCodeMessage := "UNIQUE constraint failed: students.reference_code"

  /** The schema after the two checks that precede a save. The creation inside
      the connection test only matters when it succeeds, since its result is
      ignored; the save's own creation runs only after a good test. */
  function Prepared(s: Schema, env: SaveEnv): (r: Schema)
    ensures !env.testOpens ==> r == s
    ensures env.testOpens && env.createOpens ==> r == CreateAll(s)
    ensures env.testOpens && !env.createOpens ==>
              r == (if Students !in s.tables && env.recoveryCreates then CreateAll(s) else s)
  {
    var tested := if env.testOpens && Students !in s.tables && env.recoveryCreates then CreateAll(s) else s;
    if env.testOpens && env.createOpens then CreateAll(tested) else tested
  }

  /** What a save returns, with the registration tables and row counter it leaves. */
  datatype Outcome = Outcome(result: SaveReturn, registrations: Registrations, nextStudentId: nat)

  /** The transaction: a taken reference code violates the UNIQUE constraint and a
      raising statement rolls back every insert together with the row counter;
      otherwise the four rows are committed under the next id. */
  function Commit(t: Registrations, next: nat, form: Form, code: Value, now: string, fault: Option<string>): (o: Outcome)
    ensures o.result.ok <==> !CodeTaken(t, code) && fault.None?
    ensures o.result.ok ==> o == Outcome(SaveReturn(true, code, Some(next)), Registered(t, next, form, code, now), next + 1)
    ensures !o.result.ok ==> o.result.studentId == None && o.registrations == t && o.nextStudentId == next
    ensures CodeTaken(t, code) ==> o.result == Failed(DuplicateCodeMessage)
    ensures !CodeTaken(t, code) && fault.Some? ==> o.result == Failed(fault.value)
    ensures Consistent(t, next) ==> Consistent(o.registrations, o.nextStudentId)
  {
    if CodeTaken(t, code) then Outcome(Failed(DuplicateCodeMessage), t, next)
    else if fault.Some? then Outcome(Failed(fault.value), t, next)
    else Outcome(SaveReturn(true, code, Some(next)), Registered(t, next, form, code, now), next + 1)
  }

  /** A whole save: test the connection, create the tables, connect, then commit.
      It succeeds exactly when the file opens three times, the reference code is
      free and no statement raises; a failure leaves the tables as they were. */
  function SaveOutcome(t: Registrations, next: nat, form: Form, env: SaveEnv): (o: Outcome)
    requires |env.draw| == 7 && DrawnFrom(env.draw, UpperDigits)
    ensures var code := ReferenceCodeFor(form.personal, env.draw);
            o.result.ok <==> env.testOpens && env.createOpens && env.connectOpens && env.fault.None? && !CodeTaken(t, code)
    ensures !o.result.ok ==> o.result.studentId == None && o.registrations == t && o.nextStudentId == next
    ensures !env.testOpens ==> o.result == Failed("Could not connect to SQLite database")
    ensures env.testOpens && !env.createOpens ==> o.result == Failed("Could not create database")
    ensures env.testOpens && env.createOpens && !env.connectOpens ==> o.result == Failed("unable to open database file")
    ensures env.testOpens && env.createOpens && env.connectOpens ==>
              o == Commit(t, next, form, ReferenceCodeFor(form.personal, env.draw), env.now, env.fault)
    ensures Consistent(t, next) ==> Consistent(o.registrations, o.nextStudentId)
  {
    if !env.testOpens then Outcome(Failed("Could not connect to SQLite database"), t, next)
    else if !env.createOpens then Outcome(Failed("Could not create database"), t, next)
    else if !env.connectOpens then Outcome(Failed("unable to open database file"), t, next)
    else Commit(t, next, form, ReferenceCodeFor(form.personal, env.draw), env.now, env.fault)
  }

  class SqliteStore {
    var schema: Schema
    var registrations: Registrations
    var staff: seq<StaffRow>
    var nextStudentId: nat
    var nextStaffId: nat
    var connected: bool

    ghost predicate Valid()
      reads this
    {
      Consistent(registrations, nextStudentId)
      && (Students !in schema.tables ==> registrations.students == [])
      && (Staff !in schema.tables ==> staff == [] && schema.staffColumns == map[])
      && UniqueKeys(staff) && IdsBelow(staff, nextStaffId)
      && !connected
    }

    /** A file the application has not touched yet. */
    constructor ()
      ensures Valid()
      ensures schema == Schema({}, map[]) && registrations == Empty() && staff == []
    {
      schema := Schema({}, map[]);
      registrations := Empty();
      staff := [];
      nextStudentId := 1;
      nextStaffId := 1;
      connected := false;
    }

    /** `create_database`: True after creating any missing table, False when the file does not open. */
    method CreateDatabase(opens: bool) returns (ok: bool)
      requires Valid()
      modifies this
      ensures Valid()
      ensures ok == opens
      ensures schema == (if opens then CreateAll(old(schema)) else old(schema))
      ensures registrations == old(registrations) && staff == old(staff)
      ensures nextStudentId == old(nextStudentId) && nextStaffId == old(nextStaffId)
    {
      if !opens {
        return false;
      }
      schema := CreateAll(schema);
      return true;
    }

    /** `test_connection`: True when the file opens, whatever becomes of the
        `create_database` it calls for a file without a `students` table;
        `recreates` says whether that call succeeds. */
    method TestConnection(opens: bool, recreates: bool) returns (ok: bool)
      requires Valid()
      modifies this
      ensures Valid()
      ensures ok == opens
      ensures schema == (if opens && Students !in old(schema).tables && recreates then CreateAll(old(schema))
                         else old(schema))
      ensures registrations == old(registrations) && staff == old(staff)
      ensures nextStudentId == old(nextStudentId) && nextStaffId == old(nextStaffId)
    {
      if !opens {
        return false;
      }
      if Students !in schema.tables {
        var _ := CreateDatabase(recreates);
      }
      return true;
    }

    /** `save_registration`: the four inserts of one registration in one transaction. */
    method SaveRegistration(form: Form, env: SaveEnv) returns (r: SaveReturn)
      requires Valid()
      requires |env.draw| == 7 && DrawnFrom(env.draw, UpperDigits)
      modifies this
      ensures Valid()
      ensures schema == Prepared(old(schema), env)
      ensures staff == old(staff) && nextStaffId == old(nextStaffId)
      ensures Outcome(r, registrations, nextStudentId)
              == SaveOutcome(old(registrations), old(nextStudentId), form, env)
    {
      var tested := TestConnection(env.testOpens, env.recoveryCreates);
      if !tested {
        return Failed("Could not connect to SQLite database");
      }
      var created := CreateDatabase(env.createOpens);
      if !created {
        return Failed("Could not create database");
      }
      if !env.connectOpens {
        return Failed("unable to open database file");
      }
      connected := true;
      r := Transaction(form, ReferenceCodeFor(form.personal, env.draw), env.now, env.fault);
      connected := false;
    }

    /** The four inserts between BEGIN TRANSACTION and the commit; a raising
        statement rolls all of them back, together with the row counter. */
    method Transaction(form: Form, code: Value, now: string, fault: Option<string>) returns (r: SaveReturn)
      requires Consistent(registrations, nextStudentId)
      modifies `registrations, `nextStudentId
      ensures Consistent(registrations, nextStudentId)
      ensures Outcome(r, registrations, nextStudentId)
              == Commit(old(registrations), old(nextStudentId), form, code, now, fault)
    {
      if CodeTaken(registrations, code) {
        return Failed(DuplicateCodeMessage);
      }
      if fault.Some? {
        return Failed(fault.value);
      }
      var id := nextStudentId;
      registrations := Registered(registrations, id, form, code, now);
      nextStudentId := id + 1;
      return SaveReturn(true, code, Some(id));
    }
  }
}
