/** The MySQL store: a server that may or may not be running, a database that may
    or may not exist yet, and the six tables `create_database` declares. The
    socket probe, the clock, the random draw, date parsing and failing statements
    are parameters. */
module MysqlDb {
  import opened Values
  import opened Text
  import opened Forms
  import opened Registry
  import opened FamilyRules

  datatype Table = Students | FamilyBackground | AcademicProfile | EmergencyContacts | Admin | Staff

  const AllTables: set<Table> := {Students, FamilyBackground, AcademicProfile, EmergencyContacts, Admin, Staff}
  const RegistrationTables: set<Table> := {Students, FamilyBackground, AcademicProfile, EmergencyContacts}

  datatype StudentRow = StudentRow(
    referenceCode: Value, firstName: Value, lastName: Value, middleName: Value, extension: Value,
    lrn: string, enrollmentType: string, strand: Value, preferredSession: Value, birthday: string,
    civilStatus: Value, religion: Value, mobileNo: Value, telephoneNo: Value, ethnicity: Value,
    homeAddress: string)

  /** The two `YEAR` columns hold a digit string or NULL. */
  datatype AcademicRow = AcademicRow(
    elementarySchool: Value, elemYearGraduated: Option<string>, elemHonors: Value,
    juniorhsSchool: Value, jhsYearGraduated: Option<string>, jhsHonors: Value)

  datatype EmergencyRow = EmergencyRow(contactName: Value, relationship: Value, address: Value, contactNo: Value)

  type Registrations = Tables<StudentRow, FamilyRow, AcademicRow, EmergencyRow>

  /** `generate_reference_code`: "R", the Unix time and five drawn characters, cut
      to "R" plus the characters at positions 5 to 13 when longer than ten. */
  function GenerateReferenceCode(timestamp: nat, draw: string): (code: string)
    requires |draw| == 5 && DrawnFrom(draw, UpperDigits)
    ensures 0 < |code| <= 10 && code[0] == 'R'
    ensures DrawnFrom(code, UpperDigits)
  {
    var raw := "R" + Decimal(timestamp) + draw;
    assert DrawnFrom(raw, UpperDigits) by {
      assert "R" == UpperDigits[17..18];
      DigitsDrawn(Decimal(timestamp));
      DrawnAppend("R", Decimal(timestamp), UpperDigits);
      DrawnAppend("R" + Decimal(timestamp), draw, UpperDigits);
    }
    if |raw| > 10 then "R" + raw[5..Min(14, |raw|)] else raw
  }

  function Min(a: int, b: int): int { if a <= b then a else b }

  /** For any time between 2001 and 2286 the code is "R", the last six digits of the
      time and the first three drawn characters: the other two are cut away. */
  lemma {:induction false} TenDigitReferenceCode(timestamp: nat, draw: string)
    requires |draw| == 5 && DrawnFrom(draw, UpperDigits)
    requires 1_000_000_000 <= timestamp < 10_000_000_000
    ensures |Decimal(timestamp)| == 10
    ensures GenerateReferenceCode(timestamp, draw) == "R" + Decimal(timestamp)[4..] + draw[..3]
    ensures |GenerateReferenceCode(timestamp, draw)| == 10
  {
    TenDigitTimestamp(timestamp);
    CutAfterTenDigits(Decimal(timestamp), draw);
  }

  lemma CutAfterTenDigits(d: string, draw: string)
    requires |d| == 10 && |draw| == 5
    ensures var raw := "R" + d + draw;
            |raw| == 16 && "R" + raw[5..Min(14, |raw|)] == "R" + d[4..] + draw[..3]
  {
    var raw := "R" + d + draw;
    assert raw[5..14] == d[4..] + draw[..3];
  }

  /** Codes drawn in the same second that agree on the first three characters collide. */
  lemma SameSecondCollision(timestamp: nat, draw1: string, draw2: string)
    requires |draw1| == 5 && DrawnFrom(draw1, UpperDigits)
    requires |draw2| == 5 && DrawnFrom(draw2, UpperDigits)
    requires 1_000_000_000 <= timestamp < 10_000_000_000
    requires draw1[..3] == draw2[..3]
    ensures GenerateReferenceCode(timestamp, draw1) == GenerateReferenceCode(timestamp, draw2)
  {
    TenDigitReferenceCode(timestamp, draw1);
    TenDigitReferenceCode(timestamp, draw2);
  }

  /** `x = p.get(k, ""); if not x: x = default` */
  function OrDefault(p: Dict, key: string, default: string): (v: Value)
    requires default != ""
    ensures Truthy(v)
    ensures Truthy(Get(p, key, Text(""))) ==> v == Get(p, key, Text(""))
    ensures !Truthy(Get(p, key, Text(""))) ==> v == Text(default)
  {
    var given := Get(p, key, Text(""));
    if Truthy(given) then given else Text(default)
  }

  /** The form's own reference code when truthy, a generated one otherwise. */
  function ReferenceCodeFor(personal: Dict, timestamp: nat, draw: string): (code: Value)
    requires |draw| == 5 && DrawnFrom(draw, UpperDigits)
    ensures Truthy(code)
    ensures Truthy(Get(personal, "reference_code", Text(""))) ==> code == Get(personal, "reference_code", Text(""))
    ensures !Truthy(Get(personal, "reference_code", Text(""))) ==> code == Text(GenerateReferenceCode(timestamp, draw))
  {
    var given := Get(personal, "reference_code", Text(""));
    if Truthy(given) then given else Text(GenerateReferenceCode(timestamp, draw))
  }

  /** `strptime(s, "%Y-%m-%d").strftime("%Y-%m-%d")`, or `None` where it raises ValueError. */
  type DateParser = string -> Option<string>

  const DefaultBirthday := "2000-01-01"

  /** The `birthday` value; `None` when the lookup raises, which a `True` value does
      (strptime refuses a `bool` with a TypeError, which is not caught). */
  function Birthday(p: Dict, parse: DateParser): (b: Option<string>)
    ensures b.None? <==> Get(p, "birth_date", Text("")) == Flag(true)
    ensures !Truthy(Get(p, "birth_date", Text(""))) ==> b == Some(DefaultBirthday)
    ensures forall s :: Get(p, "birth_date", Text("")) == Text(s) && s != "" ==>
              b == Some(if parse(s).Some? then parse(s).value else DefaultBirthday)
  {
    match Get(p, "birth_date", Text(""))
    case Flag(t) => if t then None else Some(DefaultBirthday)
    case Text(s) =>
      if s == "" then Some(DefaultBirthday)
      else if parse(s).Some? then Some(parse(s).value)
      else Some(DefaultBirthday)
  }

  /** A `YEAR` value: the digits when the field is a digit string, NULL otherwise;
      `None` when the lookup raises, which a `True` value does (no `isdigit`). */
  function Year(a: Dict, key: string): (y: Option<Option<string>>)
    ensures y.None? <==> Get(a, key, Text("")) == Flag(true)
    ensures y == Some(None) <==> Get(a, key, Text("")) != Flag(true) && !(Get(a, key, Text("")).Text? && IsDigits(Get(a, key, Text("")).s))
    ensures forall s :: y == Some(Some(s)) ==> IsDigits(s) && Get(a, key, Text("")) == Text(s)
  {
    match Get(a, key, Text(""))
    case Flag(t) => if t then None else Some(None)
    case Text(s) => if s == "" || !IsDigits(s) then Some(None) else Some(Some(s))
  }

  /** `f"{lrn}_{timestamp}"` */
  function LrnOf(base: string, timestamp: nat): string {
    base + "_" + Decimal(timestamp)
  }

  /** The LRN: the form's own when truthy, the reference code otherwise, suffixed
      with the time of the save. */
  function Lrn(p: Dict, code: Value, timestamp: nat): string {
    var given := Get(p, "lrn", Text(""));
    LrnOf(Show(if Truthy(given) then given else code), timestamp)
  }

  lemma UnderscoreAt(b: string, d: string)
    ensures (b + "_" + d)[|b|] == '_'
  {
  }

  /** Cutting at an underscore followed only by digits is unambiguous. */
  lemma {:induction false} UnderscoreSplit(b1: string, d1: string, b2: string, d2: string)
    requires b1 + "_" + d1 == b2 + "_" + d2
    requires AllDigits(d1) && AllDigits(d2)
    ensures b1 == b2 && d1 == d2
  {
    var s := b1 + "_" + d1;
    assert |d1| == |d2| by {
      if |d1| < |d2| {
        UnderscoreAt(b1, d1);
        assert false;
      } else if |d2| < |d1| {
        UnderscoreAt(b2, d2);
        assert false;
      }
    }
    assert b1 == s[..|b1|] == b2;
    assert d1 == s[|b1| + 1..] == d2;
  }

  /** The LRN determines the base and the time it was built from, because the
      digits after the last underscore are the time. */
  lemma LrnInjective(b1: string, t1: nat, b2: string, t2: nat)
    requires LrnOf(b1, t1) == LrnOf(b2, t2)
    ensures b1 == b2 && t1 == t2
  {
    UnderscoreSplit(b1, Decimal(t1), b2, Decimal(t2));
    DecimalInjective(t1, t2);
  }

  /** The `students` row, with a value for every NOT NULL column: the names fall
      back to "Unknown", the mobile number to "00000000000" and the strand to
      "Select..." when blank; the other columns hold the form's values. */
  function StudentRowOf(p: Dict, code: Value, birthday: string, timestamp: nat): (row: StudentRow)
    ensures Truthy(row.firstName) && Truthy(row.lastName) && Truthy(row.strand)
    ensures Truthy(row.preferredSession) && Truthy(row.mobileNo)
    ensures row.lrn != "" && row.homeAddress != "" && row.enrollmentType in {"Freshmen", "Transferee"}
    ensures row.referenceCode == code && row.lrn == Lrn(p, code, timestamp) && row.birthday == birthday
    ensures Truthy(Get(p, "first_name", Text(""))) ==> row.firstName == Get(p, "first_name", Text(""))
    ensures !Truthy(Get(p, "first_name", Text(""))) ==> row.firstName == Text("Unknown")
    ensures Truthy(Get(p, "last_name", Text(""))) ==> row.lastName == Get(p, "last_name", Text(""))
    ensures !Truthy(Get(p, "last_name", Text(""))) ==> row.lastName == Text("Unknown")
    ensures Truthy(Get(p, "mobile", Text(""))) ==> row.mobileNo == Get(p, "mobile", Text(""))
    ensures !Truthy(Get(p, "mobile", Text(""))) ==> row.mobileNo == Text("00000000000")
    ensures Truthy(Get(p, "strand", Text(""))) ==> row.strand == Get(p, "strand", Text(""))
    ensures !Truthy(Get(p, "strand", Text(""))) ==> row.strand == Text("Select...")
    ensures row.preferredSession == SessionOf(p)
    ensures row.middleName == Get(p, "middle_name", Text("")) && row.extension == Get(p, "extension", Text(""))
    ensures row.civilStatus == Get(p, "civil_status", Text("Single")) && row.religion == Get(p, "religion", Text(""))
    ensures row.telephoneNo == Get(p, "telephone", Text("")) && row.ethnicity == Get(p, "ethnicity", Text(""))
  {
    StudentRow(code, OrDefault(p, "first_name", "Unknown"), OrDefault(p, "last_name", "Unknown"),
               Get(p, "middle_name", Text("")), Get(p, "extension", Text("")), Lrn(p, code, timestamp),
               EnrollmentType(p), OrDefault(p, "strand", "Select..."),
               SessionOf(p), birthday, Get(p, "civil_status", Text("Single")),
               Get(p, "religion", Text("")), OrDefault(p, "mobile", "00000000000"),
               Get(p, "telephone", Text("")), Get(p, "ethnicity", Text("")), Address(p))
  }

  /** `session = p.get("session", "Morning")`, and "Morning" again when falsy. */
  function SessionOf(p: Dict): (v: Value)
    ensures Truthy(v)
    ensures Truthy(Get(p, "session", Text(""))) ==> v == Get(p, "session", Text(""))
    ensures !Truthy(Get(p, "session", Text(""))) ==> v == Text("Morning")
  {
    var given := Get(p, "session", Text("Morning"));
    if Truthy(given) then given else Text("Morning")
  }

  function AcademicRowOf(a: Dict, elemYear: Option<string>, jhsYear: Option<string>): AcademicRow {
    AcademicRow(Get(a, "elementary_school", Text("")), elemYear, Get(a, "elementary_honors", Text("")),
                Get(a, "juniorhs_school", Text("")), jhsYear, Get(a, "juniorhs_honors", Text("")))
  }

  /** The `emergency_contacts` row. The relationship, address and number fall back
      to defaults when blank; the name only when absent, so a blank name stays blank. */
  function EmergencyRowOf(e: Dict): (row: EmergencyRow)
    ensures Truthy(row.relationship) && Truthy(row.address) && Truthy(row.contactNo)
    ensures Lookup(e, "contact_name").None? ==> row.contactName == Text("Not specified")
    ensures forall v :: Lookup(e, "contact_name") == Some(v) ==> row.contactName == v
    ensures Truthy(Get(e, "relationship", Text(""))) ==> row.relationship == Get(e, "relationship", Text(""))
    ensures !Truthy(Get(e, "relationship", Text(""))) ==> row.relationship == Text("Not specified")
    ensures Truthy(Get(e, "address", Text(""))) ==> row.address == Get(e, "address", Text(""))
    ensures !Truthy(Get(e, "address", Text(""))) ==> row.address == Text("Not specified")
    ensures Truthy(Get(e, "contact_no", Text(""))) ==> row.contactNo == Get(e, "contact_no", Text(""))
    ensures !Truthy(Get(e, "contact_no", Text(""))) ==> row.contactNo == Text("00000000000")
  {
    EmergencyRow(Get(e, "contact_name", Text("Not specified")), OrDefault(e, "relationship", "Not specified"),
                 OrDefault(e, "address", "Not specified"), OrDefault(e, "contact_no", "00000000000"))
  }

  /** The text without its trailing blanks, which a PAD SPACE collation ignores. */
  function TrimTrailingBlanks(s: string): (r: string)
    ensures |r| <= |s| && r == s[..|r|]
    ensures r == [] || r[|r| - 1] != ' '
    ensures forall i :: |r| <= i < |s| ==> s[i] == ' '
  {
    if s != [] && s[|s| - 1] == ' ' then TrimTrailingBlanks(s[..|s| - 1]) else s
  }

  /** What the server's default collation compares: the columns declare none, and
      the default one ignores letter case and trailing blanks. */
  function CollationKey(s: string): string {
    Lower(TrimTrailingBlanks(s))
  }

  predicate SameKey(a: string, b: string) {
    CollationKey(a) == CollationKey(b)
  }

  /** `reference_code = %s` for a stored row. */
  predicate CodeMatches(row: StudentRow, code: Value) {
    SameKey(SqlText(row.referenceCode), SqlText(code))
  }

  /** The collation makes an LRN typed in another case, or a code with trailing
      blanks, the same key as the stored one. */
  lemma CollationExamples()
    ensures SameKey("ab_1700000000", "AB_1700000000")
    ensures SameKey("R123456ABC", "r123456abc  ")
    ensures !SameKey("R123456ABC", "R123456ABD")
  {
    assert TrimTrailingBlanks("r123456abc ") == TrimTrailingBlanks("r123456abc");
    assert "r123456abc  "[..11] == "r123456abc ";
    assert "r123456abc "[..10] == "r123456abc";
    assert CollationKey("R123456ABC")[9] == 'c' && CollationKey("R123456ABD")[9] == 'd';
  }

  /** `reference_code` and `lrn` are UNIQUE under that collation. */
  predicate CodeTaken(t: Registrations, code: Value) {
    exists i :: 0 <= i < |t.students| && CodeMatches(t.students[i].row, code)
  }

  predicate LrnTaken(t: Registrations, lrn: string) {
    exists i :: 0 <= i < |t.students| && SameKey(t.students[i].row.lrn, lrn)
  }

  /** The statements of a save after the connection is open, in order. */
  datatype Step = InsertStudent | InsertFamily | InsertAcademic | InsertEmergency | CommitStep | FlushStep

  /** A statement that raises, with the message `str(e)` gives. */
  datatype Fault = Fault(step: Step, message: string)

  function FaultAt(fault: Option<Fault>, step: Step): Option<string> {
    if fault.Some? && fault.value.step == step then Some(fault.value.message) else None
  }

  /** What the environment decides during one `save_registration` call. */
  datatype SaveEnv = SaveEnv(
    running: bool,                // the socket probe of port 3306 succeeds
    checkConnects: bool,          // the connection without a database opens
    connectError: Option<string>, // the connection with the database raises this for a reason of its own
                                  // (access denied, too many connections, ...), if any
    codeTime: nat,                // int(time.time()) inside generate_reference_code
    lrnTime: nat,                 // int(time.time()) when the LRN is built
    draw: string,                 // the five characters random.choices would return
    parse: DateParser,
    fault: Option<Fault>)

  const NotRunningMessage := "MySQL server not running"
  const UnknownDatabaseMessage := "(1049, \"Unknown database 'pabloregistrationsystem'\")"

  /** The text pymysql sends for a leaf: a string as is, a bool as 1 or 0. */
  function SqlText(v: Value): string {
    match v
    case Text(s) => s
    case Flag(b) => if b then "1" else "0"
  }

  /** `str(e)` of the IntegrityError a UNIQUE key raises, as the server words it. */
  function DuplicateEntryMessage(value: string, key: string): (m: string)
    ensures |m| > 25 + |value| && m[..25] == "(1062, \"Duplicate entry '" && m[25..25 + |value|] == value
  {
    "(1062, \"Duplicate entry '" + value + "' for key '" + key + "'\")"
  }

  /** The message of the first UNIQUE key of `students` the insert breaks: the
      reference code's before the LRN's, in the order the table declares them. */
  function DuplicateFailure(t: Registrations, code: Value, lrn: string): (m: Option<string>)
    ensures m.None? <==> !CodeTaken(t, code) && !LrnTaken(t, lrn)
    ensures CodeTaken(t, code) ==> m == Some(DuplicateEntryMessage(SqlText(code), "reference_code"))
    ensures !CodeTaken(t, code) && LrnTaken(t, lrn) ==> m == Some(DuplicateEntryMessage(lrn, "lrn"))
  {
    if CodeTaken(t, code) then Some(DuplicateEntryMessage(SqlText(code), "reference_code"))
    else if LrnTaken(t, lrn) then Some(DuplicateEntryMessage(lrn, "lrn"))
    else None
  }
  const BirthdayTypeMessage := "strptime() argument 1 must be str, not bool"
  const YearTypeMessage := "'bool' object has no attribute 'isdigit'"

  /** The two checks `create_database` can fail: the server connection and the database connection. */
  datatype CreateEnv = CreateEnv(serverConnects: bool, databaseConnects: bool)

  /** One connection attempt of `test_mysql_connection`: the server answers (so the
      outcome depends on whether the database exists), refuses with another
      OperationalError (and a connection without a database then does or does not
      open), or fails with an unexpected error. */
  datatype Attempt = Answers | Refused(withoutDatabase: bool) | Unexpected

  /** Whether the attempt ends the loop: it connects, or it hands over to `create_database`. */
  predicate Decisive(a: Attempt) {
    a.Answers? || (a.Refused? && a.withoutDatabase)
  }

  /** The first decisive attempt among attempts `from` .. 2. */
  function FirstDecisive(attempt: nat -> Attempt, from: nat): (k: Option<nat>)
    ensures k.Some? ==> from <= k.value < 3 && Decisive(attempt(k.value))
                        && forall j :: from <= j < k.value ==> !Decisive(attempt(j))
    ensures k.None? ==> forall j :: from <= j < 3 ==> !Decisive(attempt(j))
    decreases 3 - from
  {
    if from >= 3 then None
    else if Decisive(attempt(from)) then Some(from)
    else FirstDecisive(attempt, from + 1)
  }

  class MysqlServer {
    var databaseExists: bool
    var tables: set<Table>
    var registrations: Registrations
    var nextStudentId: nat
    var connected: bool

    ghost predicate Valid()
      reads this
    {
      Consistent(registrations, nextStudentId)
      && (!databaseExists ==> tables == {})
      && (Students !in tables ==> registrations.students == [])
      && !connected
    }

    /** A server on which the application's database has not been created. */
    constructor ()
      ensures Valid()
      ensures !databaseExists && tables == {} && registrations == Empty()
    {
      databaseExists := false;
      tables := {};
      registrations := Empty();
      nextStudentId := 1;
      connected := false;
    }

    /** `create_database`: create the database, then every missing table. */
    method CreateDatabase(env: CreateEnv) returns (ok: bool)
      requires Valid()
      modifies this
      ensures Valid()
      ensures ok <==> env.serverConnects && env.databaseConnects
      ensures databaseExists == (old(databaseExists) || env.serverConnects)
      ensures tables == (if ok then old(tables) + AllTables else old(tables))
      ensures registrations == old(registrations) && nextStudentId == old(nextStudentId)
    {
      if !env.serverConnects {
        return false;
      }
      databaseExists := true;
      if !env.databaseConnects {
        return false;
      }
      tables := tables + AllTables;
      return true;
    }

    /** `test_mysql_connection`: up to three attempts, two seconds apart. An attempt
        on a missing database and an attempt whose fallback connection opens both
        end in `create_database`. */
    method TestMysqlConnection(running: bool, attempt: nat -> Attempt, create: CreateEnv)
      returns (ok: bool, sleeps: nat)
      requires Valid()
      modifies this
      ensures Valid()
      ensures registrations == old(registrations) && nextStudentId == old(nextStudentId)
      ensures !running ==> !ok && sleeps == 0 && databaseExists == old(databaseExists) && tables == old(tables)
      ensures running && FirstDecisive(attempt, 0).None? ==>
                !ok && sleeps == 2 && databaseExists == old(databaseExists) && tables == old(tables)
      ensures running && FirstDecisive(attempt, 0).Some? ==> sleeps == FirstDecisive(attempt, 0).value
      ensures running && FirstDecisive(attempt, 0).Some? && attempt(FirstDecisive(attempt, 0).value).Answers?
                && old(databaseExists)
              ==> ok && tables == old(tables) && databaseExists
      ensures running && FirstDecisive(attempt, 0).Some?
              && !(attempt(FirstDecisive(attempt, 0).value).Answers? && old(databaseExists)) ==>
                (ok <==> create.serverConnects && create.databaseConnects)
                && databaseExists == (old(databaseExists) || create.serverConnects)
                && tables == (if ok then old(tables) + AllTables else old(tables))
    {
      sleeps := 0;
      if !running {
        return false, 0;
      }
      var i := 0;
      while i < 3
        invariant 0 <= i <= 3
        decreases 3 - i
        invariant FirstDecisive(attempt, 0) == FirstDecisive(attempt, i)
        invariant sleeps == Min(i, 2)
        invariant databaseExists == old(databaseExists) && tables == old(tables)
        invariant registrations == old(registrations) && nextStudentId == old(nextStudentId)
      {
        match attempt(i) {
        case Answers =>
          if databaseExists {
            return true, sleeps;
          }
          ok := CreateDatabase(create);
          return ok, sleeps;
        case Refused(withoutDatabase) =>
          if withoutDatabase {
            ok := CreateDatabase(create);
            return ok, sleeps;
          }
        case Unexpected =>
        }
        if i < 2 {
          sleeps := sleeps + 1;
        }
        i := i + 1;
      }
      return false, sleeps;
    }

    /** `save_registration`: the check that creates a missing database, the
        connection, then the transaction. */
    method SaveRegistration(form: Form, env: SaveEnv) returns (r: SaveReturn)
      requires Valid()
      requires |env.draw| == 5 && DrawnFrom(env.draw, UpperDigits)
      modifies this
      ensures Valid()
      ensures databaseExists == (old(databaseExists) || (env.running && env.checkConnects))
      ensures tables == old(tables)
      ensures Outcome(r, registrations, nextStudentId)
              == SaveOutcome(old(databaseExists), old(tables), old(registrations), old(nextStudentId), form, env)
    {
      if !env.running {
        return Failed(NotRunningMessage);
      }
      if env.checkConnects && !databaseExists {
        databaseExists := true;
      }
      if env.connectError.Some? {
        return Failed(env.connectError.value);
      }
      if !databaseExists {
        return Failed(UnknownDatabaseMessage);
      }
      r := Session(form, env);
    }

    /** The save's own connection: open, run the transaction, close. */
    method Session(form: Form, env: SaveEnv) returns (r: SaveReturn)
      requires Valid() && databaseExists
      requires |env.draw| == 5 && DrawnFrom(env.draw, UpperDigits)
      modifies `registrations, `nextStudentId, `connected
      ensures Valid()
      ensures Outcome(r, registrations, nextStudentId)
              == TransactionOutcome(old(registrations), old(nextStudentId), tables, form, env)
    {
      connected := true;
      r := Transaction(form, env);
      connected := false;
    }

    /** The statements between `begin` and `commit`, then `FLUSH TABLES`. */
    method Transaction(form: Form, env: SaveEnv) returns (r: SaveReturn)
      requires Consistent(registrations, nextStudentId)
      requires |env.draw| == 5 && DrawnFrom(env.draw, UpperDigits)
      modifies `registrations, `nextStudentId
      ensures Outcome(r, registrations, nextStudentId)
              == TransactionOutcome(old(registrations), old(nextStudentId), tables, form, env)
    {
      var code := ReferenceCodeFor(form.personal, env.codeTime, env.draw);
      var birthday := Birthday(form.personal, env.parse);
      if birthday.None? {
        return Failed(BirthdayTypeMessage);
      }
      var lrn := Lrn(form.personal, code, env.lrnTime);
      if Students !in tables {
        return Failed(MissingTable("students"));
      }
      if CodeTaken(registrations, code) || LrnTaken(registrations, lrn) {
        // InnoDB assigns the AUTO_INCREMENT value before the UNIQUE check refuses the row
        nextStudentId := nextStudentId + 1;
        return Failed(DuplicateFailure(registrations, code, lrn).value);
      }
      if FaultAt(env.fault, InsertStudent).Some? {
        return Failed(FaultAt(env.fault, InsertStudent).value);
      }
      var id := nextStudentId;
      nextStudentId := nextStudentId + 1;
      var elemYear := Year(form.academic, "elementary_year");
      var jhsYear := Year(form.academic, "juniorhs_year");
      var failure := LaterFailure(tables, form.academic, env.fault);
      if failure.Some? {
        // rollback: every insert of this save is undone, the counter is not
        return Failed(failure.value);
      }
      registrations := Registered(registrations, id, form, code, birthday.value, elemYear.value, jhsYear.value, env.lrnTime);
      if FaultAt(env.fault, FlushStep).Some? {
        // the rollback after a committed transaction undoes nothing
        return Failed(FaultAt(env.fault, FlushStep).value);
      }
      return SaveReturn(true, code, Some(id));
    }
  }

  /** What a save returns, with the registration tables and counter it leaves. */
  datatype Outcome = Outcome(result: SaveReturn, registrations: Registrations, nextStudentId: nat)

  /** Whether the `students` insert reaches the row write, where InnoDB assigns an
      AUTO_INCREMENT value that is never given back: the row is inserted, or a
      UNIQUE key refuses it. A missing table or a value the statement cannot take
      fails before a value is assigned. */
  predicate IdConsumed(t: Registrations, tables: set<Table>, form: Form, env: SaveEnv)
    requires |env.draw| == 5 && DrawnFrom(env.draw, UpperDigits)
  {
    var code := ReferenceCodeFor(form.personal, env.codeTime, env.draw);
    Birthday(form.personal, env.parse).Some? && Students in tables
    && (CodeTaken(t, code) || LrnTaken(t, Lrn(form.personal, code, env.lrnTime))
        || FaultAt(env.fault, InsertStudent).None?)
  }

  /** The transaction, statement by statement. The save succeeds exactly when no
      statement raises up to the flush; the rows are kept exactly when the commit
      was reached, so a failing flush reports failure for a stored registration. */
  function TransactionOutcome(t: Registrations, next: nat, tables: set<Table>, form: Form, env: SaveEnv): (o: Outcome)
    requires |env.draw| == 5 && DrawnFrom(env.draw, UpperDigits)
    ensures o.result.ok <==> TransactionFailure(t, tables, form, env).None? && FaultAt(env.fault, FlushStep).None?
    ensures o.result.ok ==>
              o.result == SaveReturn(true, ReferenceCodeFor(form.personal, env.codeTime, env.draw), Some(next))
    ensures !o.result.ok ==> o.result.studentId == None
    ensures TransactionFailure(t, tables, form, env).Some? ==>
              o.result == Failed(TransactionFailure(t, tables, form, env).value) && o.registrations == t
    ensures TransactionFailure(t, tables, form, env).None? ==> o.registrations == Committed(t, next, form, env)
    ensures o.nextStudentId == (if IdConsumed(t, tables, form, env) then next + 1 else next)
    ensures Consistent(t, next) ==> Consistent(o.registrations, o.nextStudentId)
  {
    var code := ReferenceCodeFor(form.personal, env.codeTime, env.draw);
    var birthday := Birthday(form.personal, env.parse);
    if birthday.None? then Outcome(Failed(BirthdayTypeMessage), t, next)
    else if Students !in tables then Outcome(Failed(MissingTable("students")), t, next)
    else if CodeTaken(t, code) || LrnTaken(t, Lrn(form.personal, code, env.lrnTime)) then
      ConsistentLater(t, next, next + 1);
      Outcome(Failed(DuplicateFailure(t, code, Lrn(form.personal, code, env.lrnTime)).value), t, next + 1)
    else if FaultAt(env.fault, InsertStudent).Some? then Outcome(Failed(FaultAt(env.fault, InsertStudent).value), t, next)
    else if LaterFailure(tables, form.academic, env.fault).Some? then
      ConsistentLater(t, next, next + 1);
      Outcome(Failed(LaterFailure(tables, form.academic, env.fault).value), t, next + 1)
    else
      var r := Registered(t, next, form, code, birthday.value, Year(form.academic, "elementary_year").value,
                          Year(form.academic, "juniorhs_year").value, env.lrnTime);
      if FaultAt(env.fault, FlushStep).Some? then Outcome(Failed(FaultAt(env.fault, FlushStep).value), r, next + 1)
      else Outcome(SaveReturn(true, code, Some(next)), r, next + 1)
  }

  /** A whole save. It fails with the server message when nothing listens on the
      port. A failed database check is only printed, so the connection to the
      database comes next: it fails with its own message when it raises for a
      reason of its own, with "Unknown database" when the database neither
      existed nor was created, and otherwise the save goes as the transaction does. */
  function SaveOutcome(databaseExists: bool, tables: set<Table>, t: Registrations, next: nat, form: Form, env: SaveEnv): (o: Outcome)
    requires |env.draw| == 5 && DrawnFrom(env.draw, UpperDigits)
    ensures o.result.ok <==>
              env.running && (databaseExists || env.checkConnects) && env.connectError.None?
              && TransactionFailure(t, tables, form, env).None? && FaultAt(env.fault, FlushStep).None?
    ensures !env.running ==> o == Outcome(Failed(NotRunningMessage), t, next)
    ensures env.running && env.connectError.Some? ==> o == Outcome(Failed(env.connectError.value), t, next)
    ensures env.running && env.connectError.None? && !databaseExists && !env.checkConnects ==>
              o == Outcome(Failed(UnknownDatabaseMessage), t, next)
    ensures o.result.ok ==>
              o.result == SaveReturn(true, ReferenceCodeFor(form.personal, env.codeTime, env.draw), Some(next))
    ensures env.running && (databaseExists || env.checkConnects) && env.connectError.None? ==>
              o == TransactionOutcome(t, next, tables, form, env)
    ensures o.registrations == t || o.registrations == Committed(t, next, form, env)
    ensures Students !in tables ==> o.registrations == t
    ensures Consistent(t, next) ==> Consistent(o.registrations, o.nextStudentId)
  {
    if !env.running then Outcome(Failed(NotRunningMessage), t, next)
    else if env.connectError.Some? then Outcome(Failed(env.connectError.value), t, next)
    else if !databaseExists && !env.checkConnects then Outcome(Failed(UnknownDatabaseMessage), t, next)
    else TransactionOutcome(t, next, tables, form, env)
  }

  /** The first statement of the transaction that raises, if any, in the order the
      save runs them: the birthday conversion, the `students` insert (which fails
      on a missing table or a duplicate reference code or LRN), then the rest. */
  function TransactionFailure(t: Registrations, tables: set<Table>, form: Form, env: SaveEnv): (failure: Option<string>)
    requires |env.draw| == 5 && DrawnFrom(env.draw, UpperDigits)
    ensures var code := ReferenceCodeFor(form.personal, env.codeTime, env.draw);
            failure.None? <==>
              RegistrationTables <= tables
              && Birthday(form.personal, env.parse).Some?
              && Year(form.academic, "elementary_year").Some? && Year(form.academic, "juniorhs_year").Some?
              && !CodeTaken(t, code) && !LrnTaken(t, Lrn(form.personal, code, env.lrnTime))
              && (env.fault.None? || env.fault.value.step == FlushStep)
  {
    var code := ReferenceCodeFor(form.personal, env.codeTime, env.draw);
    if Birthday(form.personal, env.parse).None? then Some(BirthdayTypeMessage)
    else if Students !in tables then Some(MissingTable("students"))
    else if CodeTaken(t, code) || LrnTaken(t, Lrn(form.personal, code, env.lrnTime)) then
      DuplicateFailure(t, code, Lrn(form.personal, code, env.lrnTime))
    else if FaultAt(env.fault, InsertStudent).Some? then FaultAt(env.fault, InsertStudent)
    else LaterFailure(tables, form.academic, env.fault)
  }

  function MissingTable(name: string): string {
    "(1146, \"Table 'pabloregistrationsystem." + name + "' doesn't exist\")"
  }

  /** The first statement after the `students` insert that raises, if any: the
      family insert, the year conversions, the academic and emergency inserts and the
      commit, in that order. */
  function LaterFailure(tables: set<Table>, academic: Dict, fault: Option<Fault>): (failure: Option<string>)
    ensures failure.None? <==>
              {FamilyBackground, AcademicProfile, EmergencyContacts} <= tables
              && Year(academic, "elementary_year").Some? && Year(academic, "juniorhs_year").Some?
              && (fault.None? || fault.value.step in {InsertStudent, FlushStep})
  {
    if FamilyBackground !in tables then Some(MissingTable("family_background"))
    else if FaultAt(fault, InsertFamily).Some? then FaultAt(fault, InsertFamily)
    else if Year(academic, "elementary_year").None? || Year(academic, "juniorhs_year").None? then Some(YearTypeMessage)
    else if AcademicProfile !in tables then Some(MissingTable("academic_profile"))
    else if FaultAt(fault, InsertAcademic).Some? then FaultAt(fault, InsertAcademic)
    else if EmergencyContacts !in tables then Some(MissingTable("emergency_contacts"))
    else if FaultAt(fault, InsertEmergency).Some? then FaultAt(fault, InsertEmergency)
    else FaultAt(fault, CommitStep)
  }

  /** The rows one registration adds under `id`. */
  function Registered(t: Registrations, id: nat, form: Form, code: Value, birthday: string,
                      elemYear: Option<string>, jhsYear: Option<string>, timestamp: nat): (r: Registrations)
    ensures Consistent(t, id) ==> Consistent(r, id + 1)
  {
    Register(t, id, StudentRowOf(form.personal, code, birthday, timestamp), FamilyRowOf(form.family),
             AcademicRowOf(form.academic, elemYear, jhsYear), EmergencyRowOf(form.emergency))
  }

  /** The tables after a committed save of `form` under `id`, when every value converts. */
  function Committed(t: Registrations, id: nat, form: Form, env: SaveEnv): (r: Registrations)
    requires |env.draw| == 5 && DrawnFrom(env.draw, UpperDigits)
    ensures Consistent(t, id) ==> Consistent(r, id + 1)
  {
    var birthday := Birthday(form.personal, env.parse);
    var elemYear := Year(form.academic, "elementary_year");
    var jhsYear := Year(form.academic, "juniorhs_year");
    if birthday.Some? && elemYear.Some? && jhsYear.Some? then
      Registered(t, id, form, ReferenceCodeFor(form.personal, env.codeTime, env.draw), birthday.value,
                 elemYear.value, jhsYear.value, env.lrnTime)
    else
      ConsistentLater(t, id, id + 1);
      t
  }
}
