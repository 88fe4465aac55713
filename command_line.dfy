/** The command line: targets, the `-d`/`-r` scope switches, the snapshot file, the
    command to launch on a change, the checking method's name and the extension
    allow-list. Parsing walks the arguments once, updating the fields in place, and
    stops at the first malformed option. */
module CommandLines {
  import opened Basics
  import opened PathStrings

  /** The parsed settings, as one value. */
  datatype Options = Options(
    targets: seq<PathString>,
    includesDirectoryInTarget: bool,
    includesSubEntriesInTarget: bool,
    dbFile: PathString,
    commandChanged: PathString,
    checkingMethod: PathString,
    targetExtensions: seq<PathString>)

  /** What the constructor sets up: no targets, both switches off, every string empty. */
  const DefaultOptions: Options := Options([], false, false, [], [], [], [])

  // ---------------------------------------------------------------------------
  // Extension allow-list
  // ---------------------------------------------------------------------------

  /** `toupper` on the ASCII letters; every other character is left alone. */
  function ToUpper(c: PathChar): (u: PathChar)
    ensures 'a' <= c <= 'z' ==> u as int == c as int - 32
    ensures !('a' <= c <= 'z') ==> u == c
  {
    if 'a' <= c <= 'z' then (c as int - 32) as char else c
  }

  /** `ext` ends `p`, comparing characters after upper-casing both. */
  predicate IsCaseInsensitiveSuffix(ext: PathString, p: PathString) {
    |ext| <= |p| && forall k :: 0 <= k < |ext| ==> ToUpper(p[|p| - |ext| + k]) == ToUpper(ext[k])
  }

  /** A name passes the allow-list when the list is empty or some extension ends it. */
  predicate MatchesExtensions(exts: seq<PathString>, p: PathString) {
    exts == [] || exists i :: 0 <= i < |exts| && IsCaseInsensitiveSuffix(exts[i], p)
  }

  /** An empty extension ends every name, so a list holding one lets everything pass. */
  lemma {:induction false} EmptyExtensionMatchesAll(exts: seq<PathString>, p: PathString)
    requires [] in exts
    ensures MatchesExtensions(exts, p)
  {
    var i :| 0 <= i < |exts| && exts[i] == [];
    assert IsCaseInsensitiveSuffix(exts[i], p);
  }

  /** Upper-casing a name does not change whether it passes. */
  lemma {:induction false} MatchIgnoresCase(exts: seq<PathString>, p: PathString)
    ensures MatchesExtensions(exts, Map(p)) == MatchesExtensions(exts, p)
  {
    if MatchesExtensions(exts, p) && exts != [] {
      var i :| 0 <= i < |exts| && IsCaseInsensitiveSuffix(exts[i], p);
      assert IsCaseInsensitiveSuffix(exts[i], Map(p));
    }
    if MatchesExtensions(exts, Map(p)) && exts != [] {
      var i :| 0 <= i < |exts| && IsCaseInsensitiveSuffix(exts[i], Map(p));
      assert IsCaseInsensitiveSuffix(exts[i], p);
    }
  }

  /** The name upper-cased character by character. */
  function Map(p: PathString): (r: PathString)
    ensures |r| == |p| && forall k :: 0 <= k < |p| ==> r[k] == ToUpper(p[k])
  {
    seq(|p|, k requires 0 <= k < |p| => ToUpper(p[k]))
  }

  /** Names the allow-list accepts: any letter case, any extension of the list, and
      every name when the list is empty. */
  lemma {:induction false} ExtensionMatchExamples()
    ensures MatchesExtensions([".TXT"], "report.txt")
    ensures MatchesExtensions([".cpp", ".h"], "main.H")
    ensures MatchesExtensions([], "anything")
  {
    var t: seq<PathString> := [".TXT"];
    assert IsCaseInsensitiveSuffix(t[0], "report.txt");
    var hs: seq<PathString> := [".cpp", ".h"];
    assert IsCaseInsensitiveSuffix(hs[1], "main.H");
  }

  /** Names the allow-list rejects: an extension longer than the name, and a different
      ending. */
  lemma {:induction false} ExtensionMismatchExamples()
    ensures !MatchesExtensions([".txt"], "txt")
    ensures !MatchesExtensions([".cpp"], "main.cc")
  {
    var cpp: seq<PathString> := [".cpp"];
    assert !IsCaseInsensitiveSuffix(cpp[0], "main.cc") by {
      assert ToUpper("main.cc"[3]) != ToUpper(".cpp"[0]);
    }
    var txt: seq<PathString> := [".txt"];
    assert !IsCaseInsensitiveSuffix(txt[0], "txt");
  }

  // ---------------------------------------------------------------------------
  // Argument parsing, as a function
  // ---------------------------------------------------------------------------

  /** An argument whose first character is `-`. An empty argument is not one: its first
      character is the terminating NUL. */
  predicate IsOption(arg: PathString) {
    |arg| > 0 && arg[0] == '-'
  }

  /** The options that take the next argument as their value. */
  predicate TakesValue(arg: PathString) {
    arg == "-db" || arg == "-e" || arg == "-m" || arg == "-ext"
  }

  predicate IsKnownOption(arg: PathString) {
    arg == "-r" || arg == "-d" || TakesValue(arg)
  }

  /** The effect of a value-taking option and its value. */
  function SetValue(o: Options, opt: PathString, value: PathString): (r: Options)
    requires TakesValue(opt)
  {
    if opt == "-db" then o.(dbFile := value)
    else if opt == "-e" then o.(commandChanged := value)
    else if opt == "-m" then o.(checkingMethod := value)
    else o.(targetExtensions := o.targetExtensions + [value])
  }

  /** Where the scan of the arguments stops: the settings as they then are, and whether
      every argument was understood. */
  datatype Scanned = Scanned(opts: Options, ok: bool)

  /** `after` is `before` with zero or more elements appended, each of them a non-dash
      argument of `args` when `positional` holds, or some argument of `args` otherwise. */
  predicate Extends(before: seq<PathString>, after: seq<PathString>, args: seq<PathString>,
                    positional: bool)
  {
    before <= after &&
    forall k :: |before| <= k < |after| ==> after[k] in args && (positional ==> !IsOption(after[k]))
  }

  /** The loop of `parse`, applied to the arguments after the program name. */
  function Scan(args: seq<PathString>, o: Options): (r: Scanned)
    decreases |args|
  {
    if args == [] then Scanned(o, true)
    else
      var arg := args[0];
      if !IsOption(arg) then Scan(args[1..], o.(targets := o.targets + [arg]))
      else if arg == "-r" then Scan(args[1..], o.(includesSubEntriesInTarget := true))
      else if arg == "-d" then Scan(args[1..], o.(includesDirectoryInTarget := true))
      else if TakesValue(arg) then
        if |args| == 1 then Scanned(o, false)
        else Scan(args[2..], SetValue(o, arg, args[1]))
      else Scanned(o, false)
  }

  /** `parse` succeeds when the scan understood every argument and a snapshot file was
      named. A successful parse names a snapshot file, keeps the targets and extensions it
      started with and adds to them only arguments it was given, the targets among them
      being non-dash arguments. */
  function ParseFrom(args: seq<PathString>, o: Options): (r: Option<Options>)
    ensures r.Some? <==> Scan(args, o).ok && Scan(args, o).opts.dbFile != []
    ensures r.Some? ==> r.value == Scan(args, o).opts
    ensures r.Some? ==> r.value.dbFile != []
                        && Extends(o.targets, r.value.targets, args, true)
                        && Extends(o.targetExtensions, r.value.targetExtensions, args, false)
  {
    ScanOnlyAdds(args, o);
    var s := Scan(args, o);
    if s.ok && s.opts.dbFile != [] then Some(s.opts) else None
  }

  /** Wherever the scan stops, targets and extensions have only been appended to, each
      target being a non-dash argument, and neither switch has been turned off. */
  lemma {:induction false} ScanOnlyAdds(args: seq<PathString>, o: Options)
    ensures var r := Scan(args, o);
            Extends(o.targets, r.opts.targets, args, true)
            && Extends(o.targetExtensions, r.opts.targetExtensions, args, false)
            && (o.includesSubEntriesInTarget ==> r.opts.includesSubEntriesInTarget)
            && (o.includesDirectoryInTarget ==> r.opts.includesDirectoryInTarget)
    decreases |args|
  {
    if args != [] {
      var arg := args[0];
      if !IsOption(arg) || arg == "-r" || arg == "-d" {
        ScanOnlyAdds(args[1..], Scan1(arg, o));
      } else if TakesValue(arg) && |args| > 1 {
        ScanOnlyAdds(args[2..], SetValue(o, arg, args[1]));
      }
    }
  }

  /** The arguments after the program name, parsed into a fresh command line. */
  function ParseArgs(args: seq<PathString>): Option<Options> {
    ParseFrom(args, DefaultOptions)
  }

  // ---------------------------------------------------------------------------
  // The command-line object
  // ---------------------------------------------------------------------------

  class CommandLine {
    var targets: seq<PathString>
    var includesDirectoryInTarget: bool
    var includesSubEntriesInTarget: bool
    var dbFile: PathString
    var commandChanged: PathString
    var checkingMethod: PathString
    var targetExtensions: seq<PathString>

    function Snapshot(): Options
      reads this
    {
      Options(targets, includesDirectoryInTarget, includesSubEntriesInTarget, dbFile,
              commandChanged, checkingMethod, targetExtensions)
    }

    constructor ()
      ensures Snapshot() == DefaultOptions
    {
      targets := [];
      includesDirectoryInTarget := false;
      includesSubEntriesInTarget := false;
      dbFile := [];
      commandChanged := [];
      checkingMethod := [];
      targetExtensions := [];
    }

    /** `matchTargetExtension`: for each extension no longer than the name, a countdown
        over its characters compared with the name's tail; the countdown reaching zero
        means a match. The scans take the extension list as a value, so `isEntryTarget`
        (`Checking.IsEntryTarget`) uses the predicate `MatchesExtensions`, which this
        method is proved to compute; nothing in the model calls the method itself. */
    method MatchTargetExtension(p: PathString) returns (r: bool)
      ensures r == MatchesExtensions(targetExtensions, p)
    {
      if targetExtensions == [] {
        return true;
      }
      for i := 0 to |targetExtensions|
        invariant forall j :: 0 <= j < i ==> !IsCaseInsensitiveSuffix(targetExtensions[j], p)
      {
        var ext := targetExtensions[i];
        if |p| >= |ext| {
          var count := |ext|;
          var b := 0;
          while count != 0
            invariant 0 <= count <= |ext| && b == |ext| - count
            invariant forall k :: 0 <= k < b ==> ToUpper(p[|p| - |ext| + k]) == ToUpper(ext[k])
          {
            if ToUpper(p[|p| - |ext| + b]) != ToUpper(ext[b]) {
              break;
            }
            count := count - 1;
            b := b + 1;
          }
          if count == 0 {
            return true;
          }
        }
      }
      return false;
    }

    /** `parse`: `argv[0]` is the program name. The fields hold whatever the scan had set
        when it stopped; the result says whether it understood every argument and a
        snapshot file was named. */
    method Parse(argv: seq<PathString>) returns (ok: bool)
      requires |argv| >= 1
      modifies this
      ensures Snapshot() == Scan(argv[1..], old(Snapshot())).opts
      ensures ok == ParseFrom(argv[1..], old(Snapshot())).Some?
    {
      ghost var scanned := Scan(argv[1..], Snapshot());
      var i := 1;
      while i < |argv|
        invariant 1 <= i <= |argv|
        invariant Scan(argv[i..], Snapshot()) == scanned
        decreases |argv| - i
      {
        var arg := argv[i];
        assert argv[i..][1..] == argv[i + 1..];
        if IsOption(arg) {
          if arg == "-r" {
            includesSubEntriesInTarget := true;
          } else if arg == "-d" {
            includesDirectoryInTarget := true;
          } else if arg == "-db" {
            i := i + 1;
            if i == |argv| {
              return false;
            }
            assert argv[i - 1..][2..] == argv[i + 1..];
            dbFile := argv[i];
          } else if arg == "-e" {
            i := i + 1;
            if i == |argv| {
              return false;
            }
            assert argv[i - 1..][2..] == argv[i + 1..];
            commandChanged := argv[i];
          } else if arg == "-m" {
            i := i + 1;
            if i == |argv| {
              return false;
            }
            assert argv[i - 1..][2..] == argv[i + 1..];
            checkingMethod := argv[i];
          } else if arg == "-ext" {
            i := i + 1;
            if i == |argv| {
              return false;
            }
            assert argv[i - 1..][2..] == argv[i + 1..];
            targetExtensions := targetExtensions + [argv[i]];
          } else {
            return false;
          }
        } else {
          targets := targets + [arg];
        }
        i := i + 1;
      }
      if dbFile == [] {
        return false;
      }
      return true;
    }
  }

  // ---------------------------------------------------------------------------
  // Properties of parsing
  // ---------------------------------------------------------------------------

  /** A scan that understood all of `a` continues with `b` from where it left off. */
  lemma {:induction false} ScanAppend(a: seq<PathString>, b: seq<PathString>, o: Options)
    requires Scan(a, o).ok
    ensures Scan(a + b, o) == Scan(b, Scan(a, o).opts)
    decreases |a|
  {
    if a == [] {
      assert a + b == b;
    } else {
      var arg := a[0];
      if !IsOption(arg) || arg == "-r" || arg == "-d" {
        assert (a + b)[1..] == a[1..] + b;
        ScanAppend(a[1..], b, Scan1(arg, o));
      } else {
        assert TakesValue(arg) && |a| >= 2;
        assert (a + b)[2..] == a[2..] + b;
        ScanAppend(a[2..], b, SetValue(o, arg, a[1]));
      }
    }
  }

  /** The effect of one argument that takes no value. */
  function Scan1(arg: PathString, o: Options): Options {
    if !IsOption(arg) then o.(targets := o.targets + [arg])
    else if arg == "-r" then o.(includesSubEntriesInTarget := true)
    else if arg == "-d" then o.(includesDirectoryInTarget := true)
    else o
  }

  /** A value-taking option with nothing after it makes `parse` fail. */
  lemma {:induction false} TrailingOptionFails(args: seq<PathString>, opt: PathString)
    requires Scan(args, DefaultOptions).ok && TakesValue(opt)
    ensures ParseArgs(args + [opt]) == None
  {
    ScanAppend(args, [opt], DefaultOptions);
  }

  /** A dash argument that is not one of the six options makes `parse` fail, whatever
      follows it. */
  lemma {:induction false} UnknownOptionFails(args: seq<PathString>, arg: PathString, rest: seq<PathString>)
    requires Scan(args, DefaultOptions).ok && IsOption(arg) && !IsKnownOption(arg)
    ensures ParseArgs(args + [arg] + rest) == None
  {
    assert args + [arg] + rest == args + ([arg] + rest);
    ScanAppend(args, [arg] + rest, DefaultOptions);
  }

  /** A non-dash argument is appended to the targets, after the ones before it. */
  lemma {:induction false} PositionalIsTarget(args: seq<PathString>, arg: PathString, rest: seq<PathString>)
    requires Scan(args, DefaultOptions).ok && !IsOption(arg)
    ensures var o := Scan(args, DefaultOptions).opts;
            Scan(args + [arg] + rest, DefaultOptions) == Scan(rest, o.(targets := o.targets + [arg]))
  {
    assert args + [arg] + rest == args + ([arg] + rest);
    ScanAppend(args, [arg] + rest, DefaultOptions);
    assert ([arg] + rest)[1..] == rest;
  }

  /** A successful parse names its snapshot file as the value of a `-db` option. */
  lemma {:induction false} DbFileComesFromOption(args: seq<PathString>, o: Options)
    requires Scan(args, o).ok && Scan(args, o).opts.dbFile != o.dbFile
    ensures exists i :: 0 <= i < |args| - 1 && args[i] == "-db" && args[i + 1] == Scan(args, o).opts.dbFile
    decreases |args|
  {
    var arg := args[0];
    if !IsOption(arg) || arg == "-r" || arg == "-d" {
      DbFileComesFromOption(args[1..], Scan1(arg, o));
      var i :| 0 <= i < |args[1..]| - 1 && args[1..][i] == "-db" && args[1..][i + 1] == Scan(args, o).opts.dbFile;
      assert args[i + 1] == "-db" && args[i + 2] == Scan(args, o).opts.dbFile;
    } else {
      var o' := SetValue(o, arg, args[1]);
      if Scan(args[2..], o').opts.dbFile == o'.dbFile && arg == "-db" {
        assert args[0] == "-db" && args[1] == Scan(args, o).opts.dbFile;
      } else {
        DbFileComesFromOption(args[2..], o');
        var i :| 0 <= i < |args[2..]| - 1 && args[2..][i] == "-db" && args[2..][i + 1] == Scan(args, o).opts.dbFile;
        assert args[i + 2] == "-db" && args[i + 3] == Scan(args, o).opts.dbFile;
      }
    }
  }

  /** Without a `-db` option and its value, `parse` fails. */
  lemma {:induction false} DbFileRequired(args: seq<PathString>)
    requires ParseArgs(args).Some?
    ensures exists i :: 0 <= i < |args| - 1 && args[i] == "-db" && args[i + 1] == ParseArgs(args).value.dbFile
  {
    DbFileComesFromOption(args, DefaultOptions);
  }

  // ---------------------------------------------------------------------------
  // Rendering settings back as arguments
  // ---------------------------------------------------------------------------

  function ExtensionArgs(exts: seq<PathString>): (r: seq<PathString>)
    ensures |r| == 2 * |exts|
  {
    if exts == [] then [] else ["-ext", exts[0]] + ExtensionArgs(exts[1..])
  }

  /** Arguments that set `o`: the switches, the four valued options, then the targets. */
  function Render(o: Options): seq<PathString> {
    SwitchArgs(o)
    + ["-db", o.dbFile, "-e", o.commandChanged, "-m", o.checkingMethod]
    + ExtensionArgs(o.targetExtensions)
    + o.targets
  }

  /** Settings a command line can express: targets do not start with a dash and a snapshot
      file is named. */
  predicate Expressible(o: Options) {
    o.dbFile != [] && forall i :: 0 <= i < |o.targets| ==> !IsOption(o.targets[i])
  }

  lemma {:induction false} ScanExtensions(exts: seq<PathString>, o: Options)
    ensures Scan(ExtensionArgs(exts), o) == Scanned(o.(targetExtensions := o.targetExtensions + exts), true)
    decreases |exts|
  {
    if exts == [] {
      assert o.targetExtensions + exts == o.targetExtensions;
    } else {
      var args := ExtensionArgs(exts);
      assert args[2..] == ExtensionArgs(exts[1..]);
      ScanExtensions(exts[1..], SetValue(o, "-ext", exts[0]));
      assert o.targetExtensions + [exts[0]] + exts[1..] == o.targetExtensions + exts;
    }
  }

  lemma {:induction false} ScanTargets(ts: seq<PathString>, o: Options)
    requires forall i :: 0 <= i < |ts| ==> !IsOption(ts[i])
    ensures Scan(ts, o) == Scanned(o.(targets := o.targets + ts), true)
    decreases |ts|
  {
    if ts == [] {
      assert o.targets + ts == o.targets;
    } else {
      ScanTargets(ts[1..], o.(targets := o.targets + [ts[0]]));
      assert o.targets + [ts[0]] + ts[1..] == o.targets + ts;
    }
  }

  /** The two switches, each given at most once. */
  function SwitchArgs(o: Options): seq<PathString> {
    (if o.includesDirectoryInTarget then ["-d"] else []) + (if o.includesSubEntriesInTarget then ["-r"] else [])
  }

  lemma {:induction false} ScanSwitches(o: Options)
    ensures Scan(SwitchArgs(o), DefaultOptions) ==
            Scanned(DefaultOptions.(includesDirectoryInTarget := o.includesDirectoryInTarget,
                                    includesSubEntriesInTarget := o.includesSubEntriesInTarget), true)
  {
    var d: seq<PathString> := if o.includesDirectoryInTarget then ["-d"] else [];
    var r: seq<PathString> := if o.includesSubEntriesInTarget then ["-r"] else [];
    var o1 := DefaultOptions.(includesDirectoryInTarget := o.includesDirectoryInTarget);
    assert Scan(d, DefaultOptions) == Scanned(o1, true);
    ScanAppend(d, r, DefaultOptions);
    assert Scan(r, o1) == Scanned(o1.(includesSubEntriesInTarget := o.includesSubEntriesInTarget), true);
  }

  lemma {:induction false} ScanValues(o: Options, db: PathString, cmd: PathString, m: PathString)
    ensures Scan(["-db", db, "-e", cmd, "-m", m], o) ==
            Scanned(o.(dbFile := db, commandChanged := cmd, checkingMethod := m), true)
  {
    var v: seq<PathString> := ["-db", db, "-e", cmd, "-m", m];
    var o3 := o.(dbFile := db, commandChanged := cmd, checkingMethod := m);
    assert v[2..][2..][2..] == [];
    assert Scan(v[2..][2..], o.(dbFile := db, commandChanged := cmd)) == Scanned(o3, true);
    assert Scan(v[2..], o.(dbFile := db)) == Scanned(o3, true);
  }

  /** Parsing the rendered arguments gives the settings back. */
  lemma {:induction false} ParseRenderRoundTrip(o: Options)
    requires Expressible(o)
    ensures ParseArgs(Render(o)) == Some(o)
  {
    var v: seq<PathString> := ["-db", o.dbFile, "-e", o.commandChanged, "-m", o.checkingMethod];
    var x := ExtensionArgs(o.targetExtensions);
    assert Render(o) == SwitchArgs(o) + (v + (x + o.targets));
    ScanSwitches(o);
    ScanAppend(SwitchArgs(o), v + (x + o.targets), DefaultOptions);
    var o2 := DefaultOptions.(includesDirectoryInTarget := o.includesDirectoryInTarget,
                              includesSubEntriesInTarget := o.includesSubEntriesInTarget);
    ScanValues(o2, o.dbFile, o.commandChanged, o.checkingMethod);
    ScanAppend(v, x + o.targets, o2);
    var o3 := o2.(dbFile := o.dbFile, commandChanged := o.commandChanged, checkingMethod := o.checkingMethod);
    ScanExtensions(o.targetExtensions, o3);
    ScanAppend(x, o.targets, o3);
    var o4 := o3.(targetExtensions := o.targetExtensions);
    assert [] + o.targetExtensions == o.targetExtensions;
    ScanTargets(o.targets, o4);
    assert [] + o.targets == o.targets;
  }

  /** Concrete arguments that `parse` rejects: no snapshot file, a missing value and an
      unknown option. */
  lemma {:induction false} ParseFailureExamples()
    ensures ParseArgs(["a", "b"]) == None
    ensures ParseArgs(["-db"]) == None
    ensures ParseArgs(["-db", "x.db", "-q"]) == None
  {
    var ab: seq<PathString> := ["a", "b"];
    assert Scan(ab, DefaultOptions).opts.dbFile == [] by {
      assert ab[1..][1..] == [];
    }
    var bad: seq<PathString> := ["-db", "x.db", "-q"];
    assert !Scan(bad, DefaultOptions).ok by {
      assert bad[2..] == ["-q"];
    }
  }

  /** Concrete arguments that `parse` accepts, including an empty argument, which is taken
      as a target. */
  lemma {:induction false} ParseExamples()
    ensures ParseArgs(["a", "-db", "x.db", "-r", "b"]) ==
            Some(DefaultOptions.(targets := ["a", "b"], dbFile := "x.db", includesSubEntriesInTarget := true))
    ensures ParseArgs(["-db", "x.db", ""]) == Some(DefaultOptions.(targets := [""], dbFile := "x.db"))
  {
    var args: seq<PathString> := ["a", "-db", "x.db", "-r", "b"];
    var o1 := DefaultOptions.(targets := ["a"]);
    var o2 := o1.(dbFile := "x.db");
    var o3 := o2.(includesSubEntriesInTarget := true);
    var o4 := o3.(targets := ["a", "b"]);
    assert Scan(args[4..], o3) == Scanned(o4, true) by {
      assert args[4..][1..] == [];
    }
    assert Scan(args[3..], o2) == Scanned(o4, true) by {
      assert args[3..][1..] == args[4..];
    }
    assert Scan(args[1..], o1) == Scanned(o4, true) by {
      assert args[1..][2..] == args[3..];
    }
    assert Scan(args, DefaultOptions) == Scanned(o4, true) by {
      assert o1 == DefaultOptions.(targets := DefaultOptions.targets + ["a"]);
    }
    var empty: seq<PathString> := ["-db", "x.db", ""];
    var e1 := DefaultOptions.(dbFile := "x.db");
    assert Scan(empty[2..], e1) == Scanned(e1.(targets := [""]), true) by {
      assert empty[2..][1..] == [];
    }
  }
}
