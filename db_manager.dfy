/** The coordinator that saves a registration to SQLite first and MySQL second,
    and tests and creates both databases. The two store modules are oracles
    here: each call returns a value or raises. */
module DbManager {
  import opened Values
  import opened Forms

  datatype Backend = SqliteBackend | MysqlBackend

  /** The outcome of calling into a store module: its return value, or the
      message of the exception it raised. */
  datatype Call<T> = Returned(value: T) | Raised(message: string)

  /** A store's `save_registration`, as seen by the coordinator. */
  type Adapter = Form -> Call<SaveReturn>

  /** One entry of the `results` dictionary of a save: the triple the store
      returned, or `{'success': False, 'error': str(e)}`. */
  datatype Entry = Reported(success: bool, referenceCode: Value, studentId: Option<nat>) | ErrorEntry(error: string)

  function EntryOf(c: Call<SaveReturn>): (e: Entry)
    ensures e.Reported? <==> c.Returned?
    ensures c.Returned? ==> e == Reported(c.value.ok, c.value.code, c.value.studentId)
  {
    match c
    case Returned(r) => Reported(r.ok, r.code, r.studentId)
    case Raised(m) => ErrorEntry(m)
  }

  predicate Succeeded(c: Call<SaveReturn>) {
    c.Returned? && c.value.ok
  }

  /** `not ref_code`: the code is still None, or falsy. */
  predicate Unset(code: Option<Value>) {
    code.None? || !Truthy(code.value)
  }

  /** The four values `save_registration` returns, and the form as the caller sees it afterwards. */
  datatype Saved = Saved(success: bool, code: Option<Value>, studentId: Option<nat>, results: map<Backend, Entry>, form: Form)

  /** The SQLite half: on success its code becomes the reference code and is written into the form. */
  function SqliteStep(useSqlite: bool, form: Form, sqlite: Adapter): Saved {
    var start := Saved(false, None, None, map[], form);
    if !useSqlite then start
    else
      var c := sqlite(form);
      var s := start.(results := map[SqliteBackend := EntryOf(c)]);
      if Succeeded(c) then
        s.(success := true, code := Some(c.value.code), studentId := c.value.studentId,
           form := WithReferenceCode(form, c.value.code))
      else s
  }

  /** The MySQL half, on the form as the SQLite half left it: its code is used
      only when no reference code has been chosen yet. */
  function MysqlStep(useMysql: bool, s: Saved, mysql: Adapter): Saved {
    if !useMysql then s
    else
      var c := mysql(s.form);
      var t := s.(results := s.results[MysqlBackend := EntryOf(c)]);
      if Succeeded(c) && Unset(s.code) then
        t.(success := true, code := Some(c.value.code), studentId := c.value.studentId)
      else t
  }

  /** `save_registration`. It succeeds when either configured store does; the
      reference code and id come from SQLite when SQLite succeeds with a code
      and from MySQL otherwise; MySQL is called on the form that carries
      SQLite's code; and `results` holds one entry per configured store. */
  function SaveAll(useSqlite: bool, useMysql: bool, form: Form, sqlite: Adapter, mysql: Adapter): (s: Saved)
    ensures s.success <==> (useSqlite && Succeeded(sqlite(form))) || (useMysql && Succeeded(mysql(s.form)))
    ensures !s.success ==> s.code == None && s.studentId == None
    ensures useSqlite && Succeeded(sqlite(form)) ==>
              s.form == WithReferenceCode(form, sqlite(form).value.code)
    ensures !(useSqlite && Succeeded(sqlite(form))) ==> s.form == form
    ensures useSqlite && Succeeded(sqlite(form)) && Truthy(sqlite(form).value.code) ==>
              s.code == Some(sqlite(form).value.code) && s.studentId == sqlite(form).value.studentId
    ensures !(useSqlite && Succeeded(sqlite(form))) && useMysql && Succeeded(mysql(form)) ==>
              s.code == Some(mysql(form).value.code) && s.studentId == mysql(form).value.studentId
    ensures SqliteBackend in s.results <==> useSqlite
    ensures MysqlBackend in s.results <==> useMysql
    ensures s.results.Keys <= {SqliteBackend, MysqlBackend}
    ensures useSqlite ==> s.results[SqliteBackend] == EntryOf(sqlite(form))
    ensures useMysql ==> s.results[MysqlBackend] == EntryOf(mysql(s.form))
  {
    MysqlStep(useMysql, SqliteStep(useSqlite, form, sqlite), mysql)
  }

  /** The first of attempts `from` .. 2 that ends the retry loop: one that
      connects, or one that raises. */
  function FirstStop(test: nat -> Call<bool>, from: nat): (k: Option<nat>)
    ensures k.Some? ==> from <= k.value < 3 && test(k.value) != Returned(false)
                        && forall j :: from <= j < k.value ==> test(j) == Returned(false)
    ensures k.None? ==> forall j :: from <= j < 3 ==> test(j) == Returned(false)
    decreases 3 - from
  {
    if from >= 3 then None
    else if test(from) != Returned(false) then Some(from)
    else FirstStop(test, from + 1)
  }

  /** What `test_connections` reports and does: the `results` dictionary, how
      many MySQL tests ran, how often it slept, and which create calls it made. */
  datatype Probe = Probe(results: map<Backend, bool>, mysqlTests: nat, sleeps: nat, sqliteRepair: bool, mysqlRepair: bool)

  /** A caller's `form_data`, which `save_registration` updates in place. */
  class FormData {
    var form: Form

    constructor (form: Form)
      ensures this.form == form
    {
      this.form := form;
    }
  }

  class DatabaseManager {
    var useSqlite: bool
    var useMysql: bool

    /** `__init__`: MySQL is used whenever its module is available, whatever the
        argument says; then the connections are tested. */
    constructor (useSqlite: bool, useMysql: bool, sqliteAvailable: bool, mysqlAvailable: bool,
                 sqliteTest: Call<bool>, mysqlTest: nat -> Call<bool>, mysqlCreate: Call<bool>)
      ensures this.useSqlite == (useSqlite && sqliteAvailable)
      ensures this.useMysql == mysqlAvailable
    {
      this.useSqlite := useSqlite && sqliteAvailable;
      this.useMysql := mysqlAvailable;
      new;
      var _ := TestConnections(sqliteTest, mysqlTest, mysqlCreate);
    }

    /** `create_databases`: one entry per configured store, False when its call raises. */
    method CreateDatabases(sqliteCreate: Call<bool>, mysqlCreate: Call<bool>) returns (results: map<Backend, bool>)
      ensures SqliteBackend in results <==> useSqlite
      ensures MysqlBackend in results <==> useMysql
      ensures results.Keys <= {SqliteBackend, MysqlBackend}
      ensures useSqlite ==> results[SqliteBackend] == (sqliteCreate == Returned(true))
      ensures useMysql ==> results[MysqlBackend] == (mysqlCreate == Returned(true))
    {
      results := map[];
      if useSqlite {
        match sqliteCreate {
          case Returned(ok) => results := results[SqliteBackend := ok];
          case Raised(_) => results := results[SqliteBackend := false];
        }
      }
      if useMysql {
        match mysqlCreate {
          case Returned(ok) => results := results[MysqlBackend := ok];
          case Raised(_) => results := results[MysqlBackend := false];
        }
      }
    }

    /** `save_registration`: SQLite first, then MySQL on the updated form. */
    method SaveRegistration(data: FormData, sqlite: Adapter, mysql: Adapter)
      returns (success: bool, code: Option<Value>, studentId: Option<nat>, results: map<Backend, Entry>)
      modifies data
      ensures var s := SaveAll(useSqlite, useMysql, old(data.form), sqlite, mysql);
              success == s.success && code == s.code && studentId == s.studentId
              && results == s.results && data.form == s.form
    {
      results := map[];
      success := false;
      code := None;
      studentId := None;
      if useSqlite {
        var c := sqlite(data.form);
        match c {
          case Returned(r) =>
            results := results[SqliteBackend := Reported(r.ok, r.code, r.studentId)];
            if r.ok && Unset(code) {
              code := Some(r.code);
              studentId := r.studentId;
              success := true;
              data.form := WithReferenceCode(data.form, r.code);
            }
          case Raised(m) =>
            results := results[SqliteBackend := ErrorEntry(m)];
        }
      }
      if useMysql {
        var c := mysql(data.form);
        match c {
          case Returned(r) =>
            results := results[MysqlBackend := Reported(r.ok, r.code, r.studentId)];
            if r.ok && Unset(code) {
              code := Some(r.code);
              studentId := r.studentId;
              success := true;
            }
          case Raised(m) =>
            results := results[MysqlBackend := ErrorEntry(m)];
        }
      }
    }

    /** `test_connections`: the SQLite test, with a create call when it fails;
        then up to three MySQL tests, two seconds apart, stopping at the first
        that connects, and one create call when none did. A raising call makes
        that store's entry False. */
    method TestConnections(sqliteTest: Call<bool>, mysqlTest: nat -> Call<bool>, mysqlCreate: Call<bool>)
      returns (p: Probe)
      ensures SqliteBackend in p.results <==> useSqlite
      ensures MysqlBackend in p.results <==> useMysql
      ensures p.results.Keys <= {SqliteBackend, MysqlBackend}
      ensures useSqlite ==> p.results[SqliteBackend] == (sqliteTest == Returned(true))
      ensures p.sqliteRepair <==> useSqlite && sqliteTest == Returned(false)
      ensures !useMysql ==> p.mysqlTests == 0 && p.sleeps == 0 && !p.mysqlRepair
      ensures useMysql ==> 1 <= p.mysqlTests <= 3 && p.sleeps == p.mysqlTests - 1
      ensures useMysql && FirstStop(mysqlTest, 0).Some? ==>
                p.mysqlTests == FirstStop(mysqlTest, 0).value + 1 && !p.mysqlRepair
                && p.results[MysqlBackend] == (mysqlTest(FirstStop(mysqlTest, 0).value) == Returned(true))
      ensures useMysql && FirstStop(mysqlTest, 0).None? ==>
                p.mysqlTests == 3 && p.mysqlRepair && p.results[MysqlBackend] == (mysqlCreate == Returned(true))
    {
      var results: map<Backend, bool> := map[];
      var sqliteRepair := false;
      if useSqlite {
        match sqliteTest {
          case Returned(ok) =>
            results := results[SqliteBackend := ok];
            if !ok {
              // create_database is called as a recovery step; its result is not recorded
              sqliteRepair := true;
            }
          case Raised(_) =>
            results := results[SqliteBackend := false];
        }
      }
      var tests, sleeps := 0, 0;
      var mysqlRepair := false;
      if useMysql {
        var attempt := 0;
        var connected := false;
        var raised := false;
        while attempt < 3
          invariant 0 <= attempt <= 3
          invariant tests == attempt && sleeps == (if attempt < 3 then attempt else 2)
          invariant FirstStop(mysqlTest, 0) == FirstStop(mysqlTest, attempt)
          invariant !connected && !raised
          invariant MysqlBackend in results ==> !results[MysqlBackend]
          invariant SqliteBackend in results <==> useSqlite
          invariant results.Keys <= {SqliteBackend, MysqlBackend}
          invariant useSqlite ==> results[SqliteBackend] == (sqliteTest == Returned(true))
          invariant attempt > 0 ==> MysqlBackend in results
        {
          tests := tests + 1;
          var t := mysqlTest(attempt);
          if t.Raised? {
            raised := true;
            break;
          }
          results := results[MysqlBackend := t.value];
          if t.value {
            connected := true;
            break;
          }
          if attempt < 2 {
            sleeps := sleeps + 1;
          }
          attempt := attempt + 1;
        }
        if raised {
          results := results[MysqlBackend := false];
        } else if !connected {
          mysqlRepair := true;
          results := results[MysqlBackend := mysqlCreate == Returned(true)];
        }
      }
      p := Probe(results, tests, sleeps, sqliteRepair, mysqlRepair);
    }
  }
}
