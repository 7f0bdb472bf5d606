/**
 * The migration runner: ensure the `migrations` table exists, take the `.sql` files of
 * the scripts directory in sorted order, skip the names recorded before the run, and
 * run each other file statement by statement, recording its name once all of them
 * succeed. A failing file whose name is still unrecorded ends the process with status 1.
 */
module Migrations {
  import opened Wrappers
  import opened Text
  import opened Seqs
  import opened Sorting

  /** The database as the runner sees it: the recorded names and the statements issued. */
  datatype Db = Db(recorded: seq<string>, executed: seq<string>)

  datatype Outcome = Completed | Exited(status: int)

  predicate IsSqlName(name: string) {
    EndsWith(name, ".sql")
  }

  /** `fs.readdirSync(dir).filter(f => f.endsWith(".sql")).sort()`. */
  function Candidates(dir: seq<string>): (files: seq<string>)
    ensures Sorted(files)
    ensures multiset(files) == multiset(Filter(dir, IsSqlName))
    ensures forall i :: 0 <= i < |files| ==> IsSqlName(files[i]) && files[i] in dir
  {
    var sql := Filter(dir, IsSqlName);
    var files := SortStrings(sql);
    assert forall i :: 0 <= i < |files| ==> files[i] in multiset(sql);
    files
  }

  predicate NonBlank(s: string) {
    Trim(s) != ""
  }

  /** `script.split(";").filter(s => s.trim())`. */
  function Statements(script: string): (r: seq<string>)
    ensures forall i :: 0 <= i < |r| ==> ';' !in r[i] && NonBlank(r[i])
    ensures IsSubsequence(r, Split(script, ';'))
  {
    FilterIsSubsequence(Split(script, ';'), NonBlank);
    Filter(Split(script, ';'), NonBlank)
  }

  /** Statements written out with `;` between them are read back one for one. */
  lemma StatementsOfJoin(ss: seq<string>)
    requires |ss| >= 1
    requires forall i :: 0 <= i < |ss| ==> ';' !in ss[i] && NonBlank(ss[i])
    ensures Statements(Join(ss, ';')) == ss
  {
    SplitJoin(ss, ';');
    FilterAll(ss, NonBlank);
  }

  /** The names in the `migrations` table, as `new Set(rows.map(m => m.name))`. */
  function RecordedSet(db: Db): set<string> {
    set n | n in db.recorded
  }

  /** The first `k` statements, or all of them when there are fewer. */
  function UpTo(stmts: seq<string>, k: nat): seq<string> {
    if k < |stmts| then stmts[..k] else stmts
  }

  /**
   * One file not recorded before the run, with its statements. The fault is None when
   * every step succeeds, and Some(k) when statement k throws, or the INSERT when k is
   * at least the number of statements. The boolean says whether the loop goes on: after a
   * failure only when the name turns out to be recorded after all.
   */
  function RunFile(file: string, stmts: seq<string>, fault: Option<nat>, db: Db): (Db, bool)
  {
    match fault
    case None => (Db(db.recorded + [file], db.executed + stmts), true)
    case Some(k) =>
      var db' := db.(executed := db.executed + UpTo(stmts, k));
      (db', file in db'.recorded)
  }

  /**
   * The loop over the candidate files; `ran` holds the names recorded before it,
   * `scripts(f)` the statements of file `f` and `fails(f)` its fault.
   */
  function Migrate(files: seq<string>, ran: set<string>, db: Db, scripts: string -> seq<string>,
                   fails: string -> Option<nat>): (Outcome, Db)
  {
    if files == [] then (Completed, db)
    else if files[0] in ran then Migrate(files[1..], ran, db, scripts, fails)
    else
      var (db', goOn) := RunFile(files[0], scripts(files[0]), fails(files[0]), db);
      if goOn then Migrate(files[1..], ran, db', scripts, fails) else (Exited(1), db')
  }

  /** The whole run; `setupFails` says creating the table or reading the recorded names throws. */
  function RunSpec(db: Db, dir: seq<string>, read: string -> string, fails: string -> Option<nat>,
                   setupFails: bool): (Outcome, Db)
  {
    if setupFails then (Exited(1), db)
    else Migrate(Candidates(dir), RecordedSet(db), db, ScriptsOf(read), fails)
  }

  /** The statements of each file, read from the scripts directory and split. */
  function ScriptsOf(read: string -> string): string -> seq<string> {
    f => Statements(read(f))
  }

  /** The files a run executes: the candidates not recorded before it, in order. */
  function Pending(files: seq<string>, ran: set<string>): (r: seq<string>)
    ensures forall f :: f in r <==> f in files && f !in ran
  {
    if files == [] then []
    else (if files[0] in ran then [] else [files[0]]) + Pending(files[1..], ran)
  }

  /** The statements of the given files, one file after another. */
  function AllStatements(files: seq<string>, scripts: string -> seq<string>): seq<string> {
    if files == [] then [] else scripts(files[0]) + AllStatements(files[1..], scripts)
  }

  /** No file still to run fails. */
  predicate FaultFree(files: seq<string>, ran: set<string>, fails: string -> Option<nat>) {
    forall f :: f in files && f !in ran ==> fails(f).None?
  }

  lemma RunFileSucceeds(file: string, db: Db, scripts: string -> seq<string>, fails: string -> Option<nat>)
    requires fails(file).None?
    ensures RunFile(file, scripts(file), fails(file), db) ==
      (Db(db.recorded + [file], db.executed + scripts(file)), true)
  {
  }

  lemma RunFileStops(file: string, db: Db, scripts: string -> seq<string>, fails: string -> Option<nat>)
    requires fails(file).Some? && file !in db.recorded
    ensures RunFile(file, scripts(file), fails(file), db) ==
      (db.(executed := db.executed + UpTo(scripts(file), fails(file).value)), false)
  {
  }

  /** One step of the loop over a file recorded before the run. */
  lemma MigrateSkips(files: seq<string>, ran: set<string>, db: Db, scripts: string -> seq<string>,
                     fails: string -> Option<nat>)
    requires files != [] && files[0] in ran
    ensures Migrate(files, ran, db, scripts, fails) == Migrate(files[1..], ran, db, scripts, fails)
    ensures Pending(files, ran) == Pending(files[1..], ran)
  {
  }

  /** One step of the loop over a pending file that succeeds. */
  lemma MigrateRuns(files: seq<string>, ran: set<string>, db: Db, scripts: string -> seq<string>,
                    fails: string -> Option<nat>)
    requires files != [] && files[0] !in ran && fails(files[0]).None?
    ensures Migrate(files, ran, db, scripts, fails) ==
      Migrate(files[1..], ran, Db(db.recorded + [files[0]], db.executed + scripts(files[0])), scripts, fails)
    ensures Pending(files, ran) == [files[0]] + Pending(files[1..], ran)
  {
    RunFileSucceeds(files[0], db, scripts, fails);
  }

  /** Recording and running one more file in front of the rest. */
  lemma RunInFront(db: Db, file: string, rest: seq<string>, scripts: string -> seq<string>)
    ensures db.recorded + [file] + rest == db.recorded + ([file] + rest)
    ensures db.executed + scripts(file) + AllStatements(rest, scripts)
      == db.executed + AllStatements([file] + rest, scripts)
  {
    assert ([file] + rest)[1..] == rest;
  }

  /**
   * Without failures every pending file runs once, in order: all of its statements are
   * issued and then its name is recorded.
   */
  lemma {:induction false} MigrateFaultFree(files: seq<string>, ran: set<string>, db: Db,
                                            scripts: string -> seq<string>, fails: string -> Option<nat>)
    requires FaultFree(files, ran, fails)
    ensures Migrate(files, ran, db, scripts, fails) ==
      (Completed, Db(db.recorded + Pending(files, ran), db.executed + AllStatements(Pending(files, ran), scripts)))
  {
    if files == [] {
      assert db.recorded + [] == db.recorded && db.executed + [] == db.executed;
    } else {
      var file := files[0];
      assert FaultFree(files[1..], ran, fails);
      var rest := Pending(files[1..], ran);
      if file in ran {
        MigrateSkips(files, ran, db, scripts, fails);
        MigrateFaultFree(files[1..], ran, db, scripts, fails);
      } else {
        var db' := Db(db.recorded + [file], db.executed + scripts(file));
        MigrateRuns(files, ran, db, scripts, fails);
        MigrateFaultFree(files[1..], ran, db', scripts, fails);
        RunInFront(db, file, rest, scripts);
      }
    }
  }

  /**
   * A failure in a pending file whose name is not recorded stops the run with status 1:
   * the pending files before it are recorded, the failing file's statements before the
   * failing one are issued, and no later file runs.
   */
  lemma {:induction false} MigrateStopsAtFailure(before: seq<string>, file: string, after: seq<string>,
                                                 ran: set<string>, db: Db, scripts: string -> seq<string>,
                                                 fails: string -> Option<nat>)
    requires FaultFree(before, ran, fails)
    requires file !in ran && fails(file).Some? && file !in db.recorded && file !in before
    ensures var done := Pending(before, ran);
      Migrate(before + [file] + after, ran, db, scripts, fails) ==
        (Exited(1), Db(db.recorded + done,
          db.executed + AllStatements(done, scripts) + UpTo(scripts(file), fails(file).value)))
  {
    var files := before + [file] + after;
    var tail := UpTo(scripts(file), fails(file).value);
    if before == [] {
      assert files == [file] + after && files[1..] == after;
      RunFileStops(file, db, scripts, fails);
      assert db.recorded + [] == db.recorded && db.executed + [] == db.executed;
    } else {
      var first := before[0];
      assert files[0] == first;
      assert files[1..] == before[1..] + [file] + after;
      assert FaultFree(before[1..], ran, fails);
      var rest := Pending(before[1..], ran);
      if first in ran {
        MigrateSkips(files, ran, db, scripts, fails);
        MigrateSkips(before, ran, db, scripts, fails);
        MigrateStopsAtFailure(before[1..], file, after, ran, db, scripts, fails);
      } else {
        var db' := Db(db.recorded + [first], db.executed + scripts(first));
        MigrateRuns(files, ran, db, scripts, fails);
        MigrateRuns(before, ran, db, scripts, fails);
        assert file !in db'.recorded;
        MigrateStopsAtFailure(before[1..], file, after, ran, db', scripts, fails);
        RunInFront(db, first, rest, scripts);
      }
    }
  }

  /** A run with every candidate recorded issues nothing and records nothing. */
  lemma {:induction false} MigrateAllRecorded(files: seq<string>, ran: set<string>, db: Db,
                                              scripts: string -> seq<string>, fails: string -> Option<nat>)
    requires forall f :: f in files ==> f in ran
    ensures Migrate(files, ran, db, scripts, fails) == (Completed, db)
  {
    if files != [] {
      assert files[0] in files;
      MigrateAllRecorded(files[1..], ran, db, scripts, fails);
    }
  }

  /** Running the migrations again after a complete run does nothing. */
  lemma RerunDoesNothing(db: Db, dir: seq<string>, read: string -> string,
                         fails: string -> Option<nat>, later: string -> Option<nat>)
    requires FaultFree(Candidates(dir), RecordedSet(db), fails)
    ensures var (outcome, db1) := RunSpec(db, dir, read, fails, false);
      && outcome == Completed
      && RunSpec(db1, dir, read, later, false) == (Completed, db1)
  {
    var files := Candidates(dir);
    var ran := RecordedSet(db);
    MigrateFaultFree(files, ran, db, ScriptsOf(read), fails);
    var db1 := RunSpec(db, dir, read, fails, false).1;
    assert db1.recorded == db.recorded + Pending(files, ran);
    forall f | f in files ensures f in RecordedSet(db1) {
      if f in ran {
        assert f in db.recorded;
      } else {
        assert f in Pending(files, ran);
      }
    }
    MigrateAllRecorded(files, RecordedSet(db1), db1, ScriptsOf(read), later);
  }

  /** A run whose setup fails exits with status 1 and changes nothing. */
  lemma SetupFailureExits(db: Db, dir: seq<string>, read: string -> string, fails: string -> Option<nat>)
    ensures RunSpec(db, dir, read, fails, true) == (Exited(1), db)
  {
  }

  /** The `migrations` table and the statements issued against the database. */
  class MigrationDb {
    var recorded: seq<string>
    var executed: seq<string>

    function State(): Db
      reads this
    {
      Db(recorded, executed)
    }

    /** `await sql(statement)`. */
    method Execute(statement: string)
      modifies this
      ensures executed == old(executed) + [statement] && recorded == old(recorded)
    {
      executed := executed + [statement];
    }

    /** `INSERT INTO migrations (name) VALUES (...)`. */
    method Record(name: string)
      modifies this
      ensures recorded == old(recorded) + [name] && executed == old(executed)
    {
      recorded := recorded + [name];
    }

    /** `SELECT name FROM migrations`, as a set. */
    method RecordedNames() returns (names: set<string>)
      ensures names == RecordedSet(State())
    {
      names := set n | n in recorded;
    }
  }

  /** The body of the loop for one pending file: its statements in order, then its record. */
  method RunFileIn(db: MigrationDb, file: string, statements: seq<string>, fault: Option<nat>)
    returns (goOn: bool)
    modifies db
    ensures (db.State(), goOn) == RunFile(file, statements, fault, old(db.State()))
  {
    ghost var before := db.State();
    var j := 0;
    while j < |statements|
      invariant 0 <= j <= |statements|
      invariant db.State() == Db(before.recorded, before.executed + statements[..j])
      invariant fault.None? || fault.value >= j
    {
      if fault == Some(j) {
        break;
      }
      db.Execute(statements[j]);
      assert statements[..j + 1] == statements[..j] + [statements[j]];
      j := j + 1;
    }
    if fault.Some? {
      assert statements[..j] == UpTo(statements, fault.value);
      var names := db.RecordedNames();
      goOn := file in names;
    } else {
      assert statements[..j] == statements;
      db.Record(file);
      goOn := true;
    }
  }

  /** runMigrations against the database, with the failures given as parameters. */
  method RunMigrations(db: MigrationDb, dir: seq<string>, read: string -> string,
                       fails: string -> Option<nat>, setupFails: bool) returns (outcome: Outcome)
    modifies db
    ensures (outcome, db.State()) == RunSpec(old(db.State()), dir, read, fails, setupFails)
  {
    if setupFails {
      return Exited(1);
    }
    var files := Candidates(dir);
    var ran := db.RecordedNames();
    ghost var start := db.State();
    ghost var scripts := ScriptsOf(read);
    var i := 0;
    while i < |files|
      invariant 0 <= i <= |files|
      invariant Migrate(files[i..], ran, db.State(), scripts, fails) == Migrate(files, ran, start, scripts, fails)
    {
      var file := files[i];
      assert files[i..][1..] == files[i + 1..];
      if file !in ran {
        var statements := Statements(read(file));
        assert statements == scripts(file);
        var goOn := RunFileIn(db, file, statements, fails(file));
        if !goOn {
          return Exited(1);
        }
      }
      i := i + 1;
    }
    return Completed;
  }
}
