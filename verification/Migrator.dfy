// Schema migrations that survive a stop at any statement:
// internal/repo/migrator/migrator.go.
module Migrator {
  import opened Text

  datatype File = File(name: string, isDir: bool, data: Option<string>) // data None: cannot be read

  datatype Migration = Migration(version: int, name: string, sql: string)

  // ---- loading ----------------------------------------------------------------------

  predicate HasSuffix(s: string, suffix: string) {
    |suffix| <= |s| && s[|s| - |suffix|..] == suffix
  }

  predicate Selected(e: File) {
    !e.isDir && HasSuffix(e.name, ".sql")
  }

  // The number before the first "_".
  function VersionOf(name: string): Option<int> {
    var i := IndexOf(name, "_");
    ParseInt(if i == -1 then name else name[..i])
  }

  // Only the text before the first underscore counts.
  lemma {:induction false} VersionIff(front: string, rest: string)
    requires '_' !in front
    ensures VersionOf(front + "_" + rest) == ParseInt(front) && VersionOf(front) == ParseInt(front)
  {
    hide ParseInt;
    IndexOfChar(front, '_', rest);
    assert (front + "_" + rest)[..|front|] == front;
  }

  // The leading number of a file name, zero-padded or not, is its version.
  lemma {:induction false} VersionRead(zeros: string, n: nat, rest: string)
    requires (forall i :: 0 <= i < |zeros| ==> zeros[i] == '0') && IsInt64(n)
    ensures VersionOf(zeros + Digits(n) + "_" + rest) == Some(n)
  {
    var front := zeros + Digits(n);
    hide VersionOf, ParseInt, Digits;
    assert forall i :: 0 <= i < |front| ==> IsDigit(front[i]);
    ParsePadded(zeros, n);
    VersionIff(front, rest);
  }

  lemma {:induction false} SelectedIff(e: File, stem: string)
    ensures e.name == stem + ".sql" ==> (Selected(e) <==> !e.isDir)
    ensures Selected(e) ==> !e.isDir && e.name == e.name[..|e.name| - 4] + ".sql"
  {
  }

  predicate Readable(e: File) {
    VersionOf(e.name).Some? && e.data.Some?
  }

  function MigrationOf(e: File): Migration
    requires Readable(e)
  {
    Migration(VersionOf(e.name).value, e.name, e.data.value)
  }

  // Every migration file can be read, and no two have the same version.
  ghost predicate Loadable(files: seq<File>) {
    && (forall i :: 0 <= i < |files| && Selected(files[i]) ==> Readable(files[i]))
    && (forall i, j :: 0 <= i < j < |files| && Selected(files[i]) && Selected(files[j]) ==>
                         VersionOf(files[i].name) != VersionOf(files[j].name))
  }

  ghost predicate Ascending(ms: seq<Migration>) {
    forall i, j :: 0 <= i < j < |ms| ==> ms[i].version < ms[j].version
  }

  // The migrations are exactly those of the files.
  ghost predicate Embeds(files: seq<File>, ms: seq<Migration>) {
    && (forall i :: 0 <= i < |files| && Selected(files[i]) ==> Readable(files[i]) && MigrationOf(files[i]) in ms)
    && (forall m :: m in ms ==> exists i :: 0 <= i < |files| && Selected(files[i]) && Readable(files[i]) && MigrationOf(files[i]) == m)
  }

  function Insert(ms: seq<Migration>, m: Migration): (r: seq<Migration>)
    ensures multiset(r) == multiset(ms) + multiset{m}
  {
    if |ms| == 0 then [m]
    else if m.version < ms[0].version then [m] + ms
    else
      assert ms == [ms[0]] + ms[1..];
      [ms[0]] + Insert(ms[1..], m)
  }

  // sort.Slice by version
  function SortByVersion(ms: seq<Migration>): (r: seq<Migration>)
    ensures multiset(r) == multiset(ms)
  {
    if |ms| == 0 then []
    else
      assert ms == ms[..|ms| - 1] + [ms[|ms| - 1]];
      Insert(SortByVersion(ms[..|ms| - 1]), ms[|ms| - 1])
  }

  ghost predicate DistinctVersions(ms: seq<Migration>) {
    forall i, j :: 0 <= i < j < |ms| ==> ms[i].version != ms[j].version
  }

  lemma {:induction false} InsertAscending(ms: seq<Migration>, m: Migration)
    requires Ascending(ms) && forall x :: x in ms ==> x.version != m.version
    ensures Ascending(Insert(ms, m))
  {
    if |ms| > 0 && m.version >= ms[0].version {
      InsertAscending(ms[1..], m);
      var rest := Insert(ms[1..], m);
      forall x | x in rest
        ensures ms[0].version < x.version
      {
        assert x in multiset(rest);
        assert x in multiset(ms[1..]) || x == m;
        assert x == m ==> ms[0] in ms;
      }
    }
  }

  lemma {:induction false} SortAscending(ms: seq<Migration>)
    requires DistinctVersions(ms)
    ensures Ascending(SortByVersion(ms))
  {
    if |ms| > 0 {
      var front, last := ms[..|ms| - 1], ms[|ms| - 1];
      SortAscending(front);
      forall x | x in SortByVersion(front)
        ensures x.version != last.version
      {
        assert x in multiset(SortByVersion(front));
        assert x in front;
      }
      InsertAscending(SortByVersion(front), last);
    }
  }

  lemma {:induction false} SortMembers(ms: seq<Migration>, m: Migration)
    ensures m in SortByVersion(ms) <==> m in ms
  {
    assert m in SortByVersion(ms) <==> m in multiset(SortByVersion(ms));
    assert m in ms <==> m in multiset(ms);
  }

  // files: None when the directory cannot be listed.
  method LoadMigrations(files: Option<seq<File>>) returns (r: Option<seq<Migration>>)
    ensures r.Some? <==> files.Some? && Loadable(files.value)
    ensures r.Some? ==> Ascending(r.value) && Embeds(files.value, r.value)
  {
    hide VersionOf, HasSuffix;
    if files.None? {
      return None;
    }
    var es := files.value;
    var migrations: seq<Migration> := [];
    var seen: map<int, string> := map[];
    assert es[..0] == [];
    for i := 0 to |es|
      invariant Loadable(es[..i]) && Embeds(es[..i], migrations) && DistinctVersions(migrations)
      invariant forall v :: v in seen <==> exists m :: m in migrations && m.version == v
    {
      var e := es[i];
      assert es[..i + 1] == es[..i] + [e];
      LoadStep(es[..i], e, migrations);
      if e.isDir || !HasSuffix(e.name, ".sql") {
        continue;
      }
      var version := VersionOf(e.name);
      if version.None? {
        UnloadablePrefix(es, i + 1);
        return None;
      }
      if version.value in seen {
        UnloadablePrefix(es, i + 1);
        return None;
      }
      seen := seen[version.value := e.name];
      if e.data.None? {
        UnloadablePrefix(es, i + 1);
        return None;
      }
      migrations := migrations + [Migration(version.value, e.name, e.data.value)];
    }
    assert es[..|es|] == es;
    SortAscending(migrations);
    forall m
      ensures m in SortByVersion(migrations) <==> m in migrations
    {
      SortMembers(migrations, m);
    }
    r := Some(SortByVersion(migrations));
  }

  lemma {:induction false} UnloadablePrefix(es: seq<File>, n: nat)
    requires n <= |es| && !Loadable(es[..n])
    ensures !Loadable(es)
  {
  }

  // What one more file does to a prefix that loads.
  lemma {:induction false} LoadStep(es: seq<File>, e: File, ms: seq<Migration>)
    requires Loadable(es) && Embeds(es, ms) && DistinctVersions(ms)
    ensures !Selected(e) ==> Loadable(es + [e]) && Embeds(es + [e], ms)
    ensures Selected(e) && !Readable(e) ==> !Loadable(es + [e])
    ensures Selected(e) && Readable(e) && (exists m :: m in ms && m.version == MigrationOf(e).version) ==> !Loadable(es + [e])
    ensures Selected(e) && Readable(e) && (forall m :: m in ms ==> m.version != MigrationOf(e).version) ==>
              Loadable(es + [e]) && Embeds(es + [e], ms + [MigrationOf(e)]) && DistinctVersions(ms + [MigrationOf(e)])
  {
    hide VersionOf, HasSuffix, Selected;
    var all := es + [e];
    assert all[|es|] == e;
    assert forall i :: 0 <= i < |es| ==> all[i] == es[i];
    if Selected(e) && Readable(e) {
      if m :| m in ms && m.version == MigrationOf(e).version {
        var i :| 0 <= i < |es| && Selected(es[i]) && Readable(es[i]) && MigrationOf(es[i]) == m;
        assert VersionOf(all[i].name) == VersionOf(all[|es|].name);
      } else {
        var grown := ms + [MigrationOf(e)];
        forall i | 0 <= i < |es| && Selected(es[i])
          ensures VersionOf(es[i].name) != VersionOf(e.name)
        {
          assert MigrationOf(es[i]) in ms;
        }
        forall m | m in grown
          ensures exists i :: 0 <= i < |all| && Selected(all[i]) && Readable(all[i]) && MigrationOf(all[i]) == m
        {
          if m in ms {
            var i :| 0 <= i < |es| && Selected(es[i]) && Readable(es[i]) && MigrationOf(es[i]) == m;
            assert Selected(all[i]) && MigrationOf(all[i]) == m;
          } else {
            assert Selected(all[|es|]) && MigrationOf(all[|es|]) == m;
          }
        }
      }
    } else if !Selected(e) {
      forall m | m in ms
        ensures exists i :: 0 <= i < |all| && Selected(all[i]) && Readable(all[i]) && MigrationOf(all[i]) == m
      {
        var i :| 0 <= i < |es| && Selected(es[i]) && Readable(es[i]) && MigrationOf(es[i]) == m;
        assert Selected(all[i]) && MigrationOf(all[i]) == m;
      }
    }
  }

  // ---- running ------------------------------------------------------------------------

  // Where the statements of one migration stop. A failed commit may still have
  // reached the disk.
  datatype Fault = NoFault | BeginFails | ExecFails | RecordFails | CommitFails(reachedDisk: bool)

  // delivered: the recorded versions read before the row iteration ended, which
  // an unreported read error can cut short.
  datatype Env = Env(createFails: bool, queryFails: bool, scanFails: bool, delivered: set<int>, faults: nat -> Fault)
  {
    predicate ReadsAll(recorded: map<int, string>) {
      !createFails && !queryFails && !scanFails && delivered == recorded.Keys
    }
  }

  // The schema after a sequence of migrations, if every one of them succeeds.
  function Fold<S>(run: (S, string) -> Option<S>, initial: S, done: seq<Migration>): Option<S> {
    if |done| == 0 then Some(initial)
    else
      match Fold(run, initial, done[..|done| - 1])
      case None => None
      case Some(s) => run(s, TrimSpace(done[|done| - 1].sql))
  }

  // The rows of schema_migrations for these migrations.
  ghost predicate Records(recorded: map<int, string>, done: seq<Migration>) {
    && (forall m :: m in done ==> m.version in recorded && recorded[m.version] == m.name)
    && (forall v :: v in recorded ==> exists m :: m in done && m.version == v)
  }

  // Every recorded migration has taken effect exactly once, and nothing else has.
  ghost predicate ExactlyOnce<S>(run: (S, string) -> Option<S>, initial: S, schema: S, recorded: map<int, string>, done: seq<Migration>) {
    DistinctVersions(done) && Records(recorded, done) && Fold(run, initial, done) == Some(schema)
  }

  lemma {:induction false} RecordsOneMore(recorded: map<int, string>, done: seq<Migration>, m: Migration)
    requires Records(recorded, done) && m.version !in recorded
    ensures Records(recorded[m.version := m.name], done + [m])
  {
    var after, all := recorded[m.version := m.name], done + [m];
    assert all[|done|] == m && forall x :: x in done ==> x in all;
    forall x | x in all
      ensures x.version in after && after[x.version] == x.name
    {
      assert x == m || x in done;
    }
    forall v | v in after
      ensures exists x :: x in all && x.version == v
    {
      if v == m.version {
        assert m in all;
      } else {
        var x :| x in done && x.version == v;
        assert x in all;
      }
    }
  }

  lemma {:induction false} AppliedOneMore<S>(run: (S, string) -> Option<S>, initial: S, schema: S, recorded: map<int, string>,
                                             done: seq<Migration>, m: Migration)
    requires ExactlyOnce(run, initial, schema, recorded, done)
    requires m.version !in recorded && run(schema, TrimSpace(m.sql)).Some?
    ensures ExactlyOnce(run, initial, run(schema, TrimSpace(m.sql)).value, recorded[m.version := m.name], done + [m])
  {
    RecordsOneMore(recorded, done, m);
    assert forall x :: x in done ==> x.version != m.version;
    hide TrimSpace, Records;
    assert (done + [m])[..|done|] == done && (done + [m])[|done|] == m;
  }

  ghost predicate IsEmbedded(files: Option<seq<File>>, m: Migration) {
    files.Some? && exists i :: 0 <= i < |files.value| && Selected(files.value[i]) && Readable(files.value[i]) && MigrationOf(files.value[i]) == m
  }

  // Every embedded version is recorded.
  ghost predicate AllRecorded(files: Option<seq<File>>, recorded: map<int, string>) {
    files.Some? ==> forall i :: 0 <= i < |files.value| && Selected(files.value[i]) && Readable(files.value[i]) ==>
                                  MigrationOf(files.value[i]).version in recorded
  }

  lemma {:induction false} EmbeddedAll(files: Option<seq<File>>, ms: seq<Migration>)
    requires files.Some? && Embeds(files.value, ms)
    ensures forall m :: m in ms ==> IsEmbedded(files, m)
    ensures forall recorded :: AllRecorded(files, recorded) <==> forall m :: m in ms ==> m.version in recorded
  {
    forall recorded | AllRecorded(files, recorded)
      ensures forall m :: m in ms ==> m.version in recorded
    {
    }
  }

  lemma {:induction false} AscendingAppend(applied: seq<Migration>, ms: seq<Migration>, i: nat)
    requires i < |ms| && Ascending(ms) && Ascending(applied) && forall m :: m in applied ==> m in ms[..i]
    ensures Ascending(applied + [ms[i]])
  {
    forall j | 0 <= j < |applied|
      ensures applied[j].version < ms[i].version
    {
      assert applied[j] in applied && applied[j] in ms[..i];
    }
  }

  class Database<S(==)> {
    const run: (S, string) -> Option<S> // executing SQL: the new schema, or an error
    const initial: S
    var schema: S
    var recorded: map<int, string> // schema_migrations
    ghost var done: seq<Migration> // the migrations whose SQL has taken effect, in order

    ghost predicate Valid()
      reads this
    {
      ExactlyOnce(run, initial, schema, recorded, done)
    }

    constructor (run: (S, string) -> Option<S>, initial: S)
      ensures Valid() && done == [] && this.run == run && this.initial == initial && schema == initial
    {
      this.run, this.initial, schema, recorded, done := run, initial, initial, map[], [];
    }

    // One migration in its own transaction.
    method ApplyOne(m: Migration, fault: Fault) returns (ok: bool)
      requires Valid()
      modifies this
      ensures Valid()
      ensures done == old(done) || done == old(done) + [m]
      ensures done != old(done) ==> m.version !in old(recorded)
      ensures ok ==> m.version in recorded
      ensures m.version in old(recorded) ==> !ok && done == old(done) && schema == old(schema) && recorded == old(recorded)
      ensures ok <==> fault.NoFault? && m.version !in old(recorded) && run(old(schema), TrimSpace(m.sql)).Some?
      ensures forall v :: v in old(recorded) ==> v in recorded
    {
      hide ExactlyOnce, TrimSpace;
      if fault.BeginFails? {
        return false;
      }
      var executed := run(schema, TrimSpace(m.sql));
      if executed.None? || fault.ExecFails? {
        return false; // rolled back
      }
      if m.version in recorded || fault.RecordFails? {
        return false; // rolled back: version is the primary key
      }
      if fault.CommitFails? && !fault.reachedDisk {
        return false;
      }
      AppliedOneMore(run, initial, schema, recorded, done, m);
      schema := executed.value;
      recorded := recorded[m.version := m.name];
      done := done + [m];
      ok := fault.NoFault?;
    }

    // Valid before and after whatever the faults: over any sequence of runs,
    // each stopping anywhere, every recorded migration has run exactly once.
    method Migrate(files: Option<seq<File>>, env: Env) returns (ok: bool, ghost applied: seq<Migration>)
      requires Valid() && env.delivered <= recorded.Keys
      modifies this
      ensures Valid()
      ensures done == old(done) + applied && Ascending(applied)
      ensures forall m :: m in applied ==> m.version !in old(recorded) && IsEmbedded(files, m)
      ensures !(files.Some? && Loadable(files.value)) ==> !ok && applied == [] && schema == old(schema)
      ensures ok ==> AllRecorded(files, recorded)
      ensures AllRecorded(files, old(recorded)) ==> applied == [] && schema == old(schema) && recorded == old(recorded)
      ensures AllRecorded(files, old(recorded)) && env.ReadsAll(old(recorded)) && files.Some? && Loadable(files.value) ==> ok
    {
      hide ExactlyOnce, TrimSpace, Loadable, Records;
      applied := [];
      assert done == done + [];
      if env.createFails || env.queryFails || env.scanFails {
        return false, applied;
      }
      var known := env.delivered;
      var loaded := LoadMigrations(files);
      if loaded.None? {
        return false, applied;
      }
      var migrations := loaded.value;
      EmbeddedAll(files, migrations);
      hide Embeds, IsEmbedded, AllRecorded;
      for i := 0 to |migrations|
        invariant Valid()
        invariant done == old(done) + applied && Ascending(applied)
        invariant forall m :: m in applied ==> m.version !in old(recorded) && m in migrations[..i]
        invariant forall j :: 0 <= j < i ==> migrations[j].version in recorded
        invariant forall v :: v in old(recorded) ==> v in recorded
        invariant (forall j :: 0 <= j < i ==> migrations[j].version in old(recorded)) ==>
                    applied == [] && schema == old(schema) && recorded == old(recorded)
      {
        var m := migrations[i];
        if m.version in known {
          continue;
        }
        ghost var before := done;
        var stored := ApplyOne(m, env.faults(i));
        if done != before {
          AscendingAppend(applied, migrations, i);
          assert done == old(done) + (applied + [m]);
          applied := applied + [m];
        }
        if !stored {
          return false, applied;
        }
      }
      ok := true;
    }
  }
}
