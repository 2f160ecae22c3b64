// Installing a rendered config: internal/services/singbox/apply.go. The file
// system is a map; every operation on it, the check and the recording may fail.
module Apply {
  import opened Strings
  import opened Text

  type Content = seq<bv8>

  type FileSystem = map<string, Content>

  datatype Revision = Revision(content: Content, ok: bool)

  const MAX_CONFIG_BACKUPS := 5

  // What the environment decides during one call of Apply. A failed write may
  // leave anything in the file it was writing.
  datatype Attempt = Attempt(
    render: Option<Content>,
    mkdirOk: bool,
    tmpWritten: bool,
    tmpPartial: Option<Content>,
    checkOk: bool,
    unixTime: nat,
    readOk: bool,
    backupWritten: bool,
    backupPartial: Option<Content>,
    removeFailed: set<string>,
    renameOk: bool,
    recordOk: bool)

  datatype Outcome = Installed | RenderFailed | DirFailed | WriteFailed | CheckFailed | RenameFailed

  function Lookup(files: FileSystem, name: string): Option<Content> {
    if name in files then Some(files[name]) else None
  }

  // What a write leaves behind: all of data, or on failure an arbitrary remainder.
  function Written(files: FileSystem, name: string, data: Content, ok: bool, partial: Option<Content>): FileSystem {
    if ok then files[name := data] else if partial.Some? then files[name := partial.value] else files
  }

  function BackupPrefix(path: string): string {
    path + ".bak-"
  }

  function BackupName(path: string, unixTime: nat): string {
    BackupPrefix(path) + FormatInt(unixTime)
  }

  predicate IsBackup(path: string, name: string) {
    HasPrefix(name, BackupPrefix(path)) && '/' !in name[|BackupPrefix(path)|..]
  }

  function Backups(path: string, files: FileSystem): set<string> {
    set name | name in files && IsBackup(path, name)
  }

  // kept holds the newest backups of all: the five largest names, or all of them.
  ghost predicate KeepsNewest(all: set<string>, kept: set<string>) {
    && kept <= all
    && |kept| == (if |all| > 5 then 5 else |all|)
    && forall x, y :: x in kept && y in all && y !in kept ==> Less(y, x)
  }

  // Names with timestamps of one width are ordered by time.
  lemma {:induction false} BackupOrder(path: string, t: nat, u: nat)
    requires |Digits(t)| == |Digits(u)|
    ensures Less(BackupName(path, t), BackupName(path, u)) <==> t < u
  {
    LessWithPrefix(BackupPrefix(path), Digits(t), Digits(u));
    LessIsNumeric(Digits(t), Digits(u));
    ValueOfDigits(t);
    ValueOfDigits(u);
  }

  // The backups are the files the pattern "<path>.bak-*" matches.
  lemma {:induction false} IsBackupIff(path: string, name: string)
    ensures IsBackup(path, name) <==> exists stamp :: '/' !in stamp && name == path + ".bak-" + stamp
  {
    if IsBackup(path, name) {
      var stamp := name[|path + ".bak-"|..];
      assert name == path + ".bak-" + stamp;
    }
    forall stamp | '/' !in stamp && name == path + ".bak-" + stamp
      ensures IsBackup(path, name)
    {
      assert name[..|path + ".bak-"|] == path + ".bak-" && name[|path + ".bak-"|..] == stamp;
    }
  }

  // The config itself and its temporary file are no backups.
  lemma {:induction false} NotBackups(path: string)
    ensures !IsBackup(path, path) && !IsBackup(path, path + ".tmp") && path + ".tmp" != path
  {
    assert |path + ".tmp"| == |path| + 4;
  }

  // Outside the files Apply works with, nothing changes.
  ghost predicate OthersUntouched(path: string, before: FileSystem, after: FileSystem) {
    forall name :: name != path && name != path + ".tmp" && !IsBackup(path, name) ==> Lookup(after, name) == Lookup(before, name)
  }

  class Applier {
    const path: string
    var files: FileSystem
    var revisions: seq<Revision>
    ghost var passed: set<Content>    // contents the core's check accepted
    ghost var installed: set<Content> // contents that have been live

    // The live config is never anything but the first one or checked bytes, and
    // a revision recorded as good has been live.
    ghost predicate Safe(first: Option<Content>)
      reads this
    {
      && (Lookup(files, path) == first || (path in files && files[path] in passed))
      && (forall r :: r in revisions && r.ok ==> r.content in installed)
      && installed <= passed
    }

    constructor (path: string, files: FileSystem)
      ensures this.path == path && this.files == files && revisions == [] && Safe(Lookup(files, path))
    {
      this.path, this.files, this.revisions, this.passed, this.installed := path, files, [], {}, {};
    }

    // A good revision may only be recorded for the bytes that are live now.
    method Record(content: Content, ok: bool, saved: bool)
      requires ok ==> path in files && files[path] == content
      modifies this`revisions
      ensures revisions == old(revisions) + if saved then [Revision(content, ok)] else []
    {
      if saved {
        revisions := revisions + [Revision(content, ok)];
      }
    }

    // Copies the live config aside and prunes the backups.
    method BackupCurrent(a: Attempt)
      modifies this`files
      ensures Lookup(files, path) == Lookup(old(files), path)
      ensures Lookup(files, path + ".tmp") == Lookup(old(files), path + ".tmp")
      ensures OthersUntouched(path, old(files), files)
      ensures path in old(files) && a.readOk && a.backupWritten && a.removeFailed == {} ==>
                var name := path + ".bak-" + FormatInt(a.unixTime);
                && KeepsNewest(Backups(path, old(files)) + {name}, Backups(path, files))
                && forall x :: x in Backups(path, files) ==>
                                  Lookup(files, x) == Lookup(old(files), if x == name then path else x)
    {
      hide IsBackup, KeepsNewest, BackupName;
      NotBackups(path);
      if path !in files {
        return;
      }
      if !a.readOk {
        return;
      }
      var data := files[path];
      var backup := BackupName(path, a.unixTime);
      BackupIsBackup(path, a.unixTime);
      files := Written(files, backup, data, a.backupWritten, a.backupPartial);
      if !a.backupWritten {
        return;
      }
      assert Backups(path, files) == Backups(path, old(files)) + {backup};
      ghost var before := files;
      Prune(a.removeFailed);
      forall x | x in Backups(path, files)
        ensures Lookup(files, x) == Lookup(before, x)
      {
        assert Lookup(files, x).Some?;
      }
    }

    // Removes all but the newest backups; a removal may fail.
    method Prune(failed: set<string>)
      modifies this`files
      ensures forall name :: !IsBackup(path, name) ==> Lookup(files, name) == Lookup(old(files), name)
      ensures forall name :: Lookup(files, name).Some? ==> Lookup(files, name) == Lookup(old(files), name)
      ensures failed == {} ==> KeepsNewest(Backups(path, old(files)), Backups(path, files))
    {
      var matches := Sorted(Backups(path, files));
      if |matches| > MAX_CONFIG_BACKUPS {
        var cut := |matches| - MAX_CONFIG_BACKUPS;
        for i := 0 to cut
          invariant forall name :: name in matches[..i] ==> name in matches
          invariant forall name :: Lookup(files, name) ==
                                   if name in matches[..i] && name !in failed then None else Lookup(old(files), name)
        {
          assert matches[..i + 1] == matches[..i] + [matches[i]];
          if matches[i] !in failed {
            files := files - {matches[i]};
          }
        }
        if failed == {} {
          PrunedIsNewest(path, old(files), files, matches, cut);
        }
      }
    }

    // A failed attempt leaves the live config alone; a successful one installs
    // exactly the rendered bytes, which passed the check.
    method Apply(a: Attempt, ghost first: Option<Content>) returns (outcome: Outcome)
      requires Safe(first)
      modifies this
      ensures Safe(first)
      ensures old(passed) <= passed && old(installed) <= installed
      ensures outcome.Installed? ==>
                && a.render.Some? && a.checkOk && Lookup(files, path) == a.render && a.render.value in passed
                && revisions == old(revisions) + if a.recordOk then [Revision(a.render.value, true)] else []
      ensures !outcome.Installed? ==>
                && Lookup(files, path) == Lookup(old(files), path)
                && forall r :: r in revisions && r.ok ==> r in old(revisions)
      ensures outcome.Installed? <==> a.render.Some? && a.mkdirOk && a.tmpWritten && a.checkOk && a.renameOk
      ensures OthersUntouched(path, old(files), files)
    {
      hide IsBackup, KeepsNewest, BackupName, Backups;
      NotBackups(path);
      if a.render.None? {
        return RenderFailed;
      }
      var data := a.render.value;
      if !a.mkdirOk {
        return DirFailed;
      }
      var tmp := path + ".tmp";
      files := Written(files, tmp, data, a.tmpWritten, a.tmpPartial);
      if !a.tmpWritten {
        return WriteFailed;
      }
      if !a.checkOk {
        files := files - {tmp};
        Record(data, false, a.recordOk);
        return CheckFailed;
      }
      passed := passed + {files[tmp]};
      BackupCurrent(a);
      var renamed := Rename(tmp, a.renameOk);
      if !renamed {
        Record(data, false, a.recordOk);
        return RenameFailed;
      }
      installed := installed + {data};
      Record(data, true, a.recordOk);
      outcome := Installed;
    }

    // os.Rename(tmp, path): atomic, or nothing.
    method Rename(tmp: string, ok: bool) returns (renamed: bool)
      requires tmp in files && tmp != path
      modifies this`files
      ensures renamed == ok
      ensures Lookup(files, path) == if ok then Lookup(old(files), tmp) else Lookup(old(files), path)
      ensures forall name :: name != path && name != tmp ==> Lookup(files, name) == Lookup(old(files), name)
    {
      if ok {
        files := (files - {tmp})[path := files[tmp]];
      }
      renamed := ok;
    }

    // Any sequence of calls, each failing wherever it does.
    method ApplyAll(attempts: seq<Attempt>) returns (outcomes: seq<Outcome>)
      requires Safe(Lookup(files, path))
      modifies this
      ensures Safe(Lookup(old(files), path))
      ensures |outcomes| == |attempts|
      ensures (forall o :: o in outcomes ==> !o.Installed?) ==> Lookup(files, path) == Lookup(old(files), path)
      ensures OthersUntouched(path, old(files), files)
    {
      outcomes := [];
      ghost var first := Lookup(files, path);
      for i := 0 to |attempts|
        invariant Safe(first) && |outcomes| == i
        invariant (forall o :: o in outcomes ==> !o.Installed?) ==> Lookup(files, path) == first
        invariant OthersUntouched(path, old(files), files)
      {
        var o := Apply(attempts[i], first);
        assert o in outcomes + [o] && forall x :: x in outcomes ==> x in outcomes + [o];
        outcomes := outcomes + [o];
      }
    }
  }

  lemma {:induction false} BackupIsBackup(path: string, unixTime: nat)
    ensures HasPrefix(BackupName(path, unixTime), BackupPrefix(path))
    ensures '/' !in FormatInt(unixTime) && IsBackup(path, BackupName(path, unixTime))
    ensures BackupName(path, unixTime) == path + ".bak-" + FormatInt(unixTime)
  {
    var name := BackupName(path, unixTime);
    assert name[..|BackupPrefix(path)|] == BackupPrefix(path);
    assert name[|BackupPrefix(path)|..] == FormatInt(unixTime);
    forall i | 0 <= i < |FormatInt(unixTime)|
      ensures FormatInt(unixTime)[i] != '/'
    {
      assert IsDigit(Digits(unixTime)[i]);
    }
  }

  lemma {:induction false} PrunedIsNewest(path: string, before: FileSystem, after: FileSystem, matches: seq<string>, cut: nat)
    requires Ascending(matches) && cut == |matches| - MAX_CONFIG_BACKUPS
    requires |matches| == |Backups(path, before)| && forall x :: x in matches <==> x in Backups(path, before)
    requires forall name :: Lookup(after, name) == if name in matches[..cut] then None else Lookup(before, name)
    ensures KeepsNewest(Backups(path, before), Backups(path, after))
  {
    var kept := Backups(path, after);
    forall x
      ensures x in kept <==> x in matches[cut..]
    {
      assert matches == matches[..cut] + matches[cut..];
      assert Lookup(after, x) == if x in matches[..cut] then None else Lookup(before, x);
      assert x in matches <==> x in Backups(path, before);
      NotInBoth(matches, cut, x);
    }
    SetOfAscending(matches[cut..], kept);
  }

  lemma {:induction false} NotInBoth(names: seq<string>, cut: nat, x: string)
    requires Ascending(names) && cut <= |names|
    ensures !(x in names[..cut] && x in names[cut..])
  {
    LessTotal(x, x);
  }

  lemma {:induction false} SetOfAscending(names: seq<string>, elements: set<string>)
    requires Ascending(names) && forall x :: x in elements <==> x in names
    ensures |elements| == |names|
  {
    if |names| == 0 {
      assert elements == {};
    } else {
      var last := names[|names| - 1];
      forall i | 0 <= i < |names| - 1
        ensures names[i] != last
      {
        LessTotal(last, last);
      }
      assert names == names[..|names| - 1] + [last];
      SetOfAscending(names[..|names| - 1], elements - {last});
    }
  }
}
