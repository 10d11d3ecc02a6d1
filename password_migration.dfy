/** The one-off migration that replaces every plain-text password of the
    `staff` table by its salted hash. */
module PasswordMigration {
  import opened Values
  import opened Text
  import opened PasswordUtils
  import opened StaffTable
  import opened StaffLogin
  import SqliteDb

  /** One fetched row after the migration: plain text is hashed under the salt
      drawn for it; bytes are skipped; a NULL makes `hash_password` raise, so the
      row is left as it is. */
  function MigrateRow(row: StaffRow, salt: Salt, kdf: Kdf): StaffRow {
    match row.password
    case Plain(t) => row.(password := Hashed(HashPassword(t, None, salt, kdf)))
    case _ => row
  }

  /** The rows after the migration; `drawn(k)` is the salt drawn while hashing the k-th row. */
  function Migrated(rows: seq<StaffRow>, drawn: nat -> Salt, kdf: Kdf): seq<StaffRow> {
    seq(|rows|, k requires 0 <= k < |rows| => MigrateRow(rows[k], drawn(k), kdf))
  }

  /** How many rows hold plain text: the `updated_count` of a run. */
  function PlainCount(rows: seq<StaffRow>): nat
    decreases |rows|
  {
    if rows == [] then 0
    else PlainCount(rows[..|rows| - 1]) + (if rows[|rows| - 1].password.Plain? then 1 else 0)
  }

  /** A run updates at most every row, and none exactly when no row holds plain text. */
  lemma {:induction false} PlainCountBounds(rows: seq<StaffRow>)
    ensures PlainCount(rows) <= |rows|
    ensures PlainCount(rows) == 0 <==> forall k :: 0 <= k < |rows| ==> !rows[k].password.Plain?
    decreases |rows|
  {
    if rows != [] {
      var init := rows[..|rows| - 1];
      PlainCountBounds(init);
      assert forall k :: 0 <= k < |init| ==> init[k] == rows[k];
    }
  }

  /** `UPDATE staff SET password = ? WHERE staff_id = ?` */
  function SetPasswordWhere(rows: seq<StaffRow>, staffId: nat, password: Stored): (r: seq<StaffRow>)
    ensures |r| == |rows|
    ensures forall k :: 0 <= k < |rows| ==>
              r[k] == if rows[k].staffId == staffId then rows[k].(password := password) else rows[k]
  {
    seq(|rows|, k requires 0 <= k < |rows| =>
      if rows[k].staffId == staffId then rows[k].(password := password) else rows[k])
  }

  /** With unique ids, updating by the id of row i changes row i alone. */
  lemma SetPasswordOneRow(rows: seq<StaffRow>, accounts: seq<StaffRow>, i: nat, password: Stored)
    requires UniqueKeys(accounts) && |rows| == |accounts| && i < |rows|
    requires forall k :: 0 <= k < |rows| ==> rows[k].staffId == accounts[k].staffId
    ensures SetPasswordWhere(rows, accounts[i].staffId, password) == rows[i := rows[i].(password := password)]
  {
  }

  /** A migrated table keeps its rows, their order and every column but the
      password; plain text becomes the hash of that text; bytes and NULL stay. */
  lemma MigratedRows(rows: seq<StaffRow>, drawn: nat -> Salt, kdf: Kdf)
    ensures var m := Migrated(rows, drawn, kdf);
            |m| == |rows|
            && (forall k :: 0 <= k < |rows| ==> m[k] == rows[k].(password := m[k].password))
            && (forall k :: 0 <= k < |rows| && rows[k].password.Plain? ==>
                  m[k].password == Hashed(HashPassword(rows[k].password.text, None, drawn(k), kdf)))
            && (forall k :: 0 <= k < |rows| && !rows[k].password.Plain? ==> m[k] == rows[k])
  {
    MigratedAt(rows, drawn, kdf);
  }

  /** The k-th migrated row is the k-th row migrated with the k-th salt. */
  lemma MigratedAt(rows: seq<StaffRow>, drawn: nat -> Salt, kdf: Kdf)
    ensures var m := Migrated(rows, drawn, kdf);
            |m| == |rows| && forall k :: 0 <= k < |rows| ==> m[k] == MigrateRow(rows[k], drawn(k), kdf)
  {
  }

  /** After a migration no plain text is left, so a second run updates nothing
      and leaves the table as it is, whatever salts it would draw. */
  lemma MigrateTwice(rows: seq<StaffRow>, drawn: nat -> Salt, drawn2: nat -> Salt, kdf: Kdf)
    ensures PlainCount(Migrated(rows, drawn, kdf)) == 0
    ensures Migrated(Migrated(rows, drawn, kdf), drawn2, kdf) == Migrated(rows, drawn, kdf)
  {
    var m := Migrated(rows, drawn, kdf);
    MigratedAt(rows, drawn, kdf);
    MigratedAt(m, drawn2, kdf);
    assert forall k :: 0 <= k < |m| ==> !m[k].password.Plain?;
    PlainCountBounds(m);
  }

  /** The migration keeps `staff_id` and `username` unique. */
  lemma MigratedKeepsUnique(rows: seq<StaffRow>, drawn: nat -> Salt, kdf: Kdf)
    requires UniqueKeys(rows)
    ensures UniqueKeys(Migrated(rows, drawn, kdf))
  {
    MigratedAt(rows, drawn, kdf);
  }

  /** The migration keeps every `staff_id` below the next one to be assigned. */
  lemma MigratedKeepsIdsBelow(rows: seq<StaffRow>, next: nat, drawn: nat -> Salt, kdf: Kdf)
    requires IdsBelow(rows, next)
    ensures IdsBelow(Migrated(rows, drawn, kdf), next)
  {
    MigratedAt(rows, drawn, kdf);
  }

  /** Before the migration, a plain-text password logs in by equality. */
  lemma PlainLogsIn(rows: seq<StaffRow>, i: nat, kdf: Kdf, admin: bool)
    requires UniqueKeys(rows) && i < |rows| && rows[i].password.Plain?
    requires rows[i].isAdmin == (if admin then 1 else 0)
    requires Strip(rows[i].username) == rows[i].username != "" && rows[i].password.text != ""
    ensures AttemptLogin(rows, rows[i].username, rows[i].password.text, admin, kdf) == LoggedIn(rows[i])
  {
    UniqueAccount(rows, i, if admin then 1 else 0);
  }

  /** Whoever logged in with a plain-text password logs in with the same password
      after the migration, into the same account. */
  lemma MigratedLogsIn(rows: seq<StaffRow>, i: nat, drawn: nat -> Salt, kdf: Kdf, admin: bool)
    requires UniqueKeys(rows) && i < |rows| && rows[i].password.Plain?
    requires rows[i].isAdmin == (if admin then 1 else 0)
    requires Strip(rows[i].username) == rows[i].username != "" && rows[i].password.text != ""
    ensures var m := Migrated(rows, drawn, kdf);
            AttemptLogin(m, rows[i].username, rows[i].password.text, admin, kdf) == LoggedIn(m[i])
  {
    MigratedAt(rows, drawn, kdf);
    MigratedKeepsUnique(rows, drawn, kdf);
    LoginAfterHash(Migrated(rows, drawn, kdf), i, rows[i].password.text, None, drawn(i), kdf, admin);
  }

  /** The loop of `hash_all_passwords` over the fetched rows, applying each
      update by `staff_id` to the table as the transaction sees it. */
  method MigrateRows(accounts: seq<StaffRow>, drawn: nat -> Salt, kdf: Kdf) returns (rows: seq<StaffRow>, updated: nat)
    requires UniqueKeys(accounts)
    ensures rows == Migrated(accounts, drawn, kdf)
    ensures updated == PlainCount(accounts)
  {
    rows := accounts;
    updated := 0;
    for i := 0 to |accounts|
      invariant |rows| == |accounts|
      invariant forall k :: 0 <= k < |rows| ==> rows[k].staffId == accounts[k].staffId
      invariant forall k :: 0 <= k < i ==> rows[k] == MigrateRow(accounts[k], drawn(k), kdf)
      invariant forall k :: i <= k < |accounts| ==> rows[k] == accounts[k]
      invariant updated == PlainCount(accounts[..i])
    {
      assert accounts[..i + 1][..i] == accounts[..i];
      var row := accounts[i];
      if row.password.Plain? {
        SetPasswordOneRow(rows, accounts, i, Hashed(HashPassword(row.password.text, None, drawn(i), kdf)));
        rows := SetPasswordWhere(rows, row.staffId, Hashed(HashPassword(row.password.text, None, drawn(i), kdf)));
        updated := updated + 1;
      }
    }
    assert accounts[..|accounts|] == accounts;
    MigratedAt(accounts, drawn, kdf);
  }

  /** `hash_all_passwords`: False, changing nothing, when there is no staff table
      or it has no rows; otherwise each fetched row with plain text gets its hash,
      the updates are committed together and it returns True with the number of
      rows updated. */
  method HashAllPasswords(store: SqliteDb.SqliteStore, drawn: nat -> Salt, kdf: Kdf) returns (ok: bool, updated: nat)
    requires store.Valid()
    modifies store`staff
    ensures store.Valid()
    ensures ok <==> SqliteDb.Staff in store.schema.tables && old(store.staff) != []
    ensures store.staff == if ok then Migrated(old(store.staff), drawn, kdf) else old(store.staff)
    ensures updated == if ok then PlainCount(old(store.staff)) else 0
  {
    if SqliteDb.Staff !in store.schema.tables {
      return false, 0;
    }
    var accounts := store.staff;
    if accounts == [] {
      return false, 0;
    }
    var rows;
    rows, updated := MigrateRows(accounts, drawn, kdf);
    MigratedKeepsUnique(accounts, drawn, kdf);
    MigratedKeepsIdsBelow(accounts, store.nextStaffId, drawn, kdf);
    store.staff := rows;
    ok := true;
  }
}
