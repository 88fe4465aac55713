/** The program: parse the command line, pick the checking method by name, load the
    previous snapshot, scan, and on a change write the new snapshot and launch the
    command. The file system, the snapshot file's bytes and last-write time, and whether
    it can be opened for writing are inputs; the snapshot written and the command to
    launch are outputs. */
module Detfc {
  import opened Basics
  import opened PathStrings
  import opened Entries
  import opened CommandLines
  import FastCheck
  import DirSummaryCheck
  import FileStatCheck
  import Checking
  import Drains
  import RecordLists

  /** The three checking methods. */
  datatype MethodId = Method0 | Method1 | Method2

  /** The factory's name table: each method under its number and its name, and method 2
      also under the empty name, which is what `-m` left unset gives. */
  function MethodByName(name: PathString): (m: Option<MethodId>)
    ensures m == Some(Method0) <==> name == "0" || name == "fast"
    ensures m == Some(Method1) <==> name == "1" || name == "dirsummary"
    ensures m == Some(Method2) <==> name == "2" || name == "filestat" || name == ""
  {
    if name == "0" || name == "fast" then Some(Method0)
    else if name == "1" || name == "dirsummary" then Some(Method1)
    else if name == "2" || name == "filestat" || name == "" then Some(Method2)
    else None
  }

  /** The snapshot state `readDB` leaves for method 1: the loaded one, or the defaults. */
  function Loaded1(db: Option<seq<byte>>): (DirSummaryCheck.DirSummary, map<PathString, DirSummaryCheck.DirSummary>) {
    var d := DirSummaryCheck.DecodeDB1(db);
    if d.Some? then d.value else (DirSummaryCheck.EmptySummary, map[])
  }

  /** The snapshot map `readDB` leaves for method 2: the loaded one, or the empty map. */
  function Loaded2(db: Option<seq<byte>>): map<PathString, DirectoryEntry> {
    var d := FileStatCheck.DecodeDB2(db);
    if d.Some? then d.value else map[]
  }

  /** The verdict of `check` for method `m` after `readDB`: `db` is the snapshot file's
      content (None when it cannot be opened), `dbTime` its last-write time (0 when it
      cannot be read). */
  predicate Verdict(m: MethodId, o: Options, fs: Filesystem, db: Option<seq<byte>>, dbTime: FileTime) {
    match m
    case Method0 => FastCheck.Changed(o, dbTime, fs)
    case Method1 => DirSummaryCheck.Changed(o, fs, Loaded1(db).0, Loaded1(db).1)
    case Method2 => FileStatCheck.Changed(o, fs, Loaded2(db))
  }

  /** What `writeDB` of method `m` writes after a scan. */
  function Snapshot(m: MethodId, o: Options, fs: Filesystem): seq<byte> {
    match m
    case Method0 => []
    case Method1 => DirSummaryCheck.EncodeDB1(DirSummaryCheck.TopLevel(o, fs), DirSummaryCheck.ScanDirs(o, fs))
    case Method2 => FileStatCheck.EncodeDB2(FileStatCheck.ScannedTargets(o, fs))
  }

  /** `main`. `exit` is the exit code; `written` is the snapshot file written, None when
      it is left alone; `command` is the command line handed to the shell, None when none
      is launched. */
  method Run(argv: seq<PathString>, fs: Filesystem, db: Option<seq<byte>>, dbTime: FileTime, canWrite: bool)
    returns (exit: int, written: Option<seq<byte>>, command: Option<PathString>)
    requires |argv| >= 1
    ensures ParseArgs(argv[1..]).None? ==> exit == -1 && written.None? && command.None?
    ensures ParseArgs(argv[1..]).Some? && MethodByName(ParseArgs(argv[1..]).value.checkingMethod).None? ==>
              exit == -1 && written.None? && command.None?
    ensures ParseArgs(argv[1..]).Some? && MethodByName(ParseArgs(argv[1..]).value.checkingMethod).Some? ==>
              var o := ParseArgs(argv[1..]).value;
              var m := MethodByName(o.checkingMethod).value;
              var changed := Verdict(m, o, fs, db, dbTime);
              exit == 0
              && written == (if changed && canWrite then Some(Snapshot(m, o, fs)) else None)
              && command == (if changed && o.commandChanged != [] then Some(o.commandChanged) else None)
  {
    var cmdline := new CommandLine();
    var ok := cmdline.Parse(argv);
    if !ok {
      return -1, None, None;
    }
    var o := cmdline.Snapshot();
    var m := MethodByName(o.checkingMethod);
    if m.None? {
      return -1, None, None;
    }
    var changed: bool;
    match m.value {
      case Method0 =>
        changed, written := RunMethod0(o, fs, dbTime, canWrite);
      case Method1 =>
        changed, written := RunMethod1(o, fs, db, canWrite);
      case Method2 =>
        changed, written := RunMethod2(o, fs, db, canWrite);
    }
    command := None;
    if changed && o.commandChanged != [] {
      command := Some(o.commandChanged);
    }
    exit := 0;
  }

  /** Method 0 from `readDB` on: the snapshot file is truncated only on a change. */
  method RunMethod0(o: Options, fs: Filesystem, dbTime: FileTime, canWrite: bool) returns (changed: bool, written: Option<seq<byte>>)
    ensures changed == FastCheck.Changed(o, dbTime, fs)
    ensures written == if changed && canWrite then Some([]) else None
  {
    var checker := new FastCheck.CheckingMethod0(o);
    checker.ReadDB(dbTime);
    changed := checker.Check(fs);
    written := None;
    if changed {
      written := checker.WriteDB(canWrite);
    }
  }

  /** Method 1 from `readDB` on: the snapshot is written only on a change. */
  method RunMethod1(o: Options, fs: Filesystem, db: Option<seq<byte>>, canWrite: bool) returns (changed: bool, written: Option<seq<byte>>)
    ensures changed == DirSummaryCheck.Changed(o, fs, Loaded1(db).0, Loaded1(db).1)
    ensures written == if changed && canWrite then Some(DirSummaryCheck.EncodeDB1(DirSummaryCheck.TopLevel(o, fs), DirSummaryCheck.ScanDirs(o, fs))) else None
  {
    var checker := new DirSummaryCheck.CheckingMethod1(o);
    checker.ReadDB(db);
    changed := checker.Check(fs);
    written := None;
    if changed {
      written := checker.WriteDB(canWrite);
    }
  }

  /** Method 2 from `readDB` on: the snapshot is written only on a change. */
  method RunMethod2(o: Options, fs: Filesystem, db: Option<seq<byte>>, canWrite: bool) returns (changed: bool, written: Option<seq<byte>>)
    ensures changed == FileStatCheck.Changed(o, fs, Loaded2(db))
    ensures written == if changed && canWrite then Some(FileStatCheck.EncodeDB2(FileStatCheck.ScannedTargets(o, fs))) else None
  {
    var checker := new FileStatCheck.CheckingMethod2(o);
    checker.ReadDB(db);
    changed := checker.Check(fs);
    written := None;
    if changed {
      written := checker.WriteDB(canWrite);
    }
  }

  /** Running twice on file systems that agree, the second run reading what the first
      wrote, the second run reports no change with methods 1 and 2, provided no path is
      met twice and every path's length fits a `size_t`. */
  lemma {:induction false} RerunUnchanged(m: MethodId, o: Options, fs: Filesystem, dbTime: FileTime)
    requires m != Method0
    requires m == Method1 ==>
               var d := DirSummaryCheck.ScanDirs(o, fs);
               Drains.DistinctKeys(d) && |d| < U64_MODULUS && RecordLists.AllOk(DirSummaryCheck.PathFits, d)
    requires m == Method2 ==>
               var es := FileStatCheck.ScannedTargets(o, fs);
               Drains.DistinctKeys(FileStatCheck.Keyed(es)) && |es| < U64_MODULUS
               && RecordLists.AllOk(FileStatCheck.RecordFits, FileStatCheck.Records(es))
    ensures !Verdict(m, o, fs, Some(Snapshot(m, o, fs)), dbTime)
  {
    if m == Method1 {
      DirSummaryCheck.SecondRunUnchanged(o, fs);
    } else {
      FileStatCheck.SecondRunUnchanged(o, fs);
    }
  }

  /** Method 0 compares with the snapshot file's last-write time: after a run that
      truncated it at time `now`, the next run on unchanged targets reports no change
      when no in-scope entry is later than `now`. */
  lemma {:induction false} FastRerun(o: Options, fs: Filesystem, now: FileTime)
    requires forall e :: e in Checking.WalkAll(o, Checking.Roots(fs, o.targets)) && Checking.IsEntryTarget(o, e) ==> e.lastWriteTime <= now
    ensures !Verdict(Method0, o, fs, Some(Snapshot(Method0, o, fs)), now)
  {
    FastCheck.NothingNewerIsUnchanged(o, now, fs);
  }

  /** With no snapshot file, method 2 reports a change exactly when some entry is in
      scope. */
  lemma {:induction false} FirstRunMethod2(o: Options, fs: Filesystem, dbTime: FileTime)
    ensures var es := Checking.WalkAll(o, Checking.Roots(fs, o.targets));
            Verdict(Method2, o, fs, None, dbTime) <==> exists i :: 0 <= i < |es| && Checking.IsEntryTarget(o, es[i])
  {
    FileStatCheck.FirstRun(o, fs);
  }
}
