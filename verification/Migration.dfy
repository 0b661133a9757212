/**
 * drizzle/MigrationScript.ts: brings the local SQLite database up to schema
 * version 1. The database is its `user_version`, the set of table names and
 * whether the journal is in write-ahead-log mode; a rejected statement is a
 * migration that fails where it stands.
 */
module Migration {
  const DatabaseVersion: int := 1

  /** The tables version 0 creates, in order. */
  const Todos := "todos"
  const Priorities := "priorities"
  const Labels := "labels"

  datatype Db = Db(userVersion: int, tables: set<string>, wal: bool)

  /** The database after the migration and whether it resolved (`ok`) or rejected. */
  datatype Outcome = Outcome(db: Db, ok: bool)

  /**
   * One `execAsync` of the version-0 script: `PRAGMA journal_mode = 'wal'`
   * then `CREATE TABLE name`, which fails when the table already exists.
   */
  function CreateTable(db: Db, name: string): (r: Outcome)
    ensures r.db.wal && r.db.userVersion == db.userVersion
    ensures r.ok <==> name !in db.tables
    ensures r.db.tables == db.tables + {name}
  {
    if name in db.tables then Outcome(db.(wal := true), false)
    else Outcome(db.(wal := true, tables := db.tables + {name}), true)
  }

  /** The whole of `migrateDbIfNeeded`. */
  function Migrate(db: Db): (r: Outcome)
    ensures db.userVersion >= DatabaseVersion ==> r == Outcome(db, true)
    ensures db.userVersion < 0 ==> r == Outcome(db.(userVersion := DatabaseVersion), true)
    ensures db.userVersion == 0 ==>
      (r.ok <==> Todos !in db.tables && Priorities !in db.tables && Labels !in db.tables)
    ensures db.userVersion == 0 && r.ok ==>
      r.db == Db(DatabaseVersion, db.tables + {Todos, Priorities, Labels}, true)
    ensures !r.ok ==> db.userVersion == 0 && r.db.userVersion == 0 && db.tables <= r.db.tables
    ensures r.ok ==> r.db.userVersion >= DatabaseVersion
  {
    if db.userVersion >= DatabaseVersion then Outcome(db, true)
    else
      var created :=
        if db.userVersion == 0 then
          var first := CreateTable(db, Todos);
          if !first.ok then first
          else
            var second := CreateTable(first.db, Priorities);
            if !second.ok then second
            else CreateTable(second.db, Labels)
        else Outcome(db, true);
      if !created.ok then created
      else Outcome(created.db.(userVersion := DatabaseVersion), true)
  }

  /**
   * Running the migration twice is running it once: a migrated database is
   * left alone, and a failed one fails again in the same state. The
   * version-0 script is not atomic: a failure keeps version 0 and the
   * tables created so far, so every later launch fails too.
   */
  lemma MigrateIdempotent(db: Db)
    ensures Migrate(Migrate(db).db) == Migrate(db)
  {
    var r := Migrate(db);
    if !r.ok {
      // The failed run created `todos` or found it, so the rerun fails at once.
      assert Todos in CreateTable(db, Todos).db.tables;
      assert Todos in r.db.tables;
      assert CreateTable(r.db, Todos) == Outcome(r.db, false);
    }
  }

  /** The opened SQLite database. */
  class Database {
    var userVersion: int
    var tables: set<string>
    var wal: bool

    function State(): Db
      reads this
    {
      Db(userVersion, tables, wal)
    }

    constructor (db: Db)
      ensures State() == db
    {
      userVersion := db.userVersion;
      tables := db.tables;
      wal := db.wal;
    }

    /** One `execAsync` of a version-0 statement pair; `false` is a rejection. */
    method Exec(name: string) returns (ok: bool)
      modifies this
      ensures Outcome(State(), ok) == CreateTable(old(State()), name)
    {
      wal := true;
      if name in tables {
        return false;
      }
      tables := tables + {name};
      return true;
    }

    /** `migrateDbIfNeeded(db)`: resolves (`ok`) or rejects at the first failing statement. */
    method MigrateDbIfNeeded() returns (ok: bool)
      modifies this
      ensures Outcome(State(), ok) == Migrate(old(State()))
    {
      var currentDbVersion := userVersion;
      if currentDbVersion >= DatabaseVersion {
        return true;
      }
      if currentDbVersion == 0 {
        ok := Exec(Todos);
        if !ok { return; }
        ok := Exec(Priorities);
        if !ok { return; }
        ok := Exec(Labels);
        if !ok { return; }
        currentDbVersion := 1;
      }
      userVersion := DatabaseVersion;
      ok := true;
    }
  }
}
