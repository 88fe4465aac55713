/** Checking method 0 ("fast"): the targets have changed when some entry in scope was
    written after the snapshot file was. The scan stops at the first such entry. The
    snapshot file holds nothing; only its last-write time is used. */
module FastCheck {
  import opened Basics
  import opened PathStrings
  import opened Entries
  import opened CommandLines
  import opened Checking

  /** An entry in scope written strictly after `dbTime`. */
  predicate IsNewer(o: Options, dbTime: FileTime, e: DirectoryEntry) {
    IsEntryTarget(o, e) && e.lastWriteTime > dbTime
  }

  /** Some entry of `es` is newer. */
  predicate HasNewer(o: Options, dbTime: FileTime, es: seq<DirectoryEntry>) {
    es != [] && (IsNewer(o, dbTime, es[0]) || HasNewer(o, dbTime, es[1..]))
  }

  lemma {:induction false} HasNewerExists(o: Options, dbTime: FileTime, es: seq<DirectoryEntry>)
    ensures HasNewer(o, dbTime, es) <==> exists i :: 0 <= i < |es| && IsNewer(o, dbTime, es[i])
    decreases |es|
  {
    if es != [] {
      HasNewerExists(o, dbTime, es[1..]);
      if exists i :: 0 <= i < |es| && IsNewer(o, dbTime, es[i]) {
        var i :| 0 <= i < |es| && IsNewer(o, dbTime, es[i]);
        if i > 0 {
          assert es[1..][i - 1] == es[i];
        }
      }
      if HasNewer(o, dbTime, es[1..]) {
        var i :| 0 <= i < |es[1..]| && IsNewer(o, dbTime, es[1..][i]);
        assert es[i + 1] == es[1..][i];
      }
    }
  }

  /** The entries a scan with early exit examines. */
  function ScannedPrefix(o: Options, dbTime: FileTime, es: seq<DirectoryEntry>): seq<DirectoryEntry> {
    if es == [] then []
    else if IsNewer(o, dbTime, es[0]) then [es[0]]
    else [es[0]] + ScannedPrefix(o, dbTime, es[1..])
  }

  /** The examined entries run up to and including the first newer one, or are all of
      them when there is none. */
  lemma {:induction false} ScannedPrefixStopsAtFirstNewer(o: Options, dbTime: FileTime, es: seq<DirectoryEntry>)
    ensures var r := ScannedPrefix(o, dbTime, es);
            |r| <= |es| && r == es[..|r|]
            && (!HasNewer(o, dbTime, es) ==> r == es)
            && (HasNewer(o, dbTime, es) ==>
                  |r| >= 1 && IsNewer(o, dbTime, r[|r| - 1])
                  && forall i :: 0 <= i < |r| - 1 ==> !IsNewer(o, dbTime, r[i]))
    decreases |es|
  {
    if es != [] && !IsNewer(o, dbTime, es[0]) {
      ScannedPrefixStopsAtFirstNewer(o, dbTime, es[1..]);
      var rest := ScannedPrefix(o, dbTime, es[1..]);
      var r := [es[0]] + rest;
      assert es == [es[0]] + es[1..];
      assert forall k :: 1 <= k < |r| ==> r[k] == rest[k - 1];
    }
  }

  lemma {:induction false} HasNewerAppend(o: Options, dbTime: FileTime, a: seq<DirectoryEntry>, b: seq<DirectoryEntry>)
    ensures HasNewer(o, dbTime, a + b) <==> HasNewer(o, dbTime, a) || HasNewer(o, dbTime, b)
    decreases |a|
  {
    if a == [] {
      assert a + b == b;
    } else {
      assert (a + b)[0] == a[0];
      assert (a + b)[1..] == a[1..] + b;
      HasNewerAppend(o, dbTime, a[1..], b);
    }
  }

  /** Scanning `a` then `b` stops inside `a` when it holds a newer entry, and otherwise
      examines all of `a` and goes on into `b`. */
  lemma {:induction false} ScannedPrefixAppend(o: Options, dbTime: FileTime, a: seq<DirectoryEntry>, b: seq<DirectoryEntry>)
    ensures ScannedPrefix(o, dbTime, a + b) ==
            if HasNewer(o, dbTime, a) then ScannedPrefix(o, dbTime, a) else a + ScannedPrefix(o, dbTime, b)
    decreases |a|
  {
    if a == [] {
      assert a + b == b;
    } else {
      var t := a[1..];
      assert (a + b)[0] == a[0] && (a + b)[1..] == t + b;
      if !IsNewer(o, dbTime, a[0]) {
        ScannedPrefixAppend(o, dbTime, t, b);
        assert ScannedPrefix(o, dbTime, a + b) == [a[0]] + ScannedPrefix(o, dbTime, t + b);
        if !HasNewer(o, dbTime, t) {
          assert [a[0]] + (t + ScannedPrefix(o, dbTime, b)) == a + ScannedPrefix(o, dbTime, b);
        }
      }
    }
  }

  /** The verdict of a scan of the targets in `fs`: some entry met is in scope and newer
      than the snapshot file. */
  predicate Changed(o: Options, dbTime: FileTime, fs: Filesystem) {
    HasNewer(o, dbTime, WalkAll(o, Roots(fs, o.targets)))
  }

  /** One step of a scan over `ns`: the entries before `ns[i]` held nothing newer and
      `visited` grew by what the scan of `ns[i]` examined. A hit ends the scan of all of
      `ns` there; otherwise the scan goes on with `ns[i]`'s walk added. */
  lemma {:induction false} ScanStep(o: Options, dbTime: FileTime, ns: seq<Node>, i: int, seen: seq<DirectoryEntry>,
                 v0: seq<DirectoryEntry>, mid: seq<DirectoryEntry>, v1: seq<DirectoryEntry>, hit: bool)
    requires 0 <= i < |ns| && seen == WalkAll(o, ns[..i]) && !HasNewer(o, dbTime, seen)
    requires hit == HasNewer(o, dbTime, Walk(o, ns[i]))
    requires mid == v0 + seen && v1 == mid + ScannedPrefix(o, dbTime, Walk(o, ns[i]))
    ensures hit ==> HasNewer(o, dbTime, WalkAll(o, ns))
                    && v1 == v0 + ScannedPrefix(o, dbTime, WalkAll(o, ns))
    ensures !hit ==> seen + Walk(o, ns[i]) == WalkAll(o, ns[..i + 1])
                     && !HasNewer(o, dbTime, seen + Walk(o, ns[i]))
                     && v1 == v0 + (seen + Walk(o, ns[i]))
  {
    var w := Walk(o, ns[i]);
    var sp := ScannedPrefix(o, dbTime, w);
    assert v1 == v0 + (seen + sp);
    if hit {
      var c := WalkAll(o, ns[i + 1..]);
      WalkAllSplit(o, ns, i);
      HasNewerAppend(o, dbTime, w, c);
      HasNewerAppend(o, dbTime, seen, w + c);
      ScannedPrefixAppend(o, dbTime, seen, w + c);
      ScannedPrefixAppend(o, dbTime, w, c);
    } else {
      ScannedPrefixStopsAtFirstNewer(o, dbTime, w);
      assert ns[..i + 1] == ns[..i] + [ns[i]];
      WalkAllAppend(o, ns[..i], ns[i]);
      HasNewerAppend(o, dbTime, seen, w);
    }
  }

  /** A scan that met no newer entry examined everything. */
  lemma {:induction false} ScanEnds(o: Options, dbTime: FileTime, ns: seq<Node>, seen: seq<DirectoryEntry>)
    requires seen == WalkAll(o, ns[..|ns|]) && !HasNewer(o, dbTime, seen)
    ensures seen == WalkAll(o, ns)
    ensures !HasNewer(o, dbTime, WalkAll(o, ns))
    ensures ScannedPrefix(o, dbTime, WalkAll(o, ns)) == seen
  {
    assert ns[..|ns|] == ns;
    ScannedPrefixStopsAtFirstNewer(o, dbTime, WalkAll(o, ns));
  }

  /** The scan from one node: its own entry first, then what lies below it. */
  lemma {:induction false} ScanOfNode(o: Options, dbTime: FileTime, n: Node)
    ensures HasNewer(o, dbTime, Walk(o, n)) <==>
            IsNewer(o, dbTime, n.entry) || (Descends(o, n.entry) && HasNewer(o, dbTime, WalkAll(o, n.children)))
    ensures ScannedPrefix(o, dbTime, Walk(o, n)) ==
            if IsNewer(o, dbTime, n.entry) then [n.entry]
            else if Descends(o, n.entry) then [n.entry] + ScannedPrefix(o, dbTime, WalkAll(o, n.children))
            else [n.entry]
  {
    var below := if Descends(o, n.entry) then WalkAll(o, n.children) else [];
    assert Walk(o, n) == [n.entry] + below;
    HasNewerAppend(o, dbTime, [n.entry], below);
    ScannedPrefixAppend(o, dbTime, [n.entry], below);
    if !IsNewer(o, dbTime, n.entry) {
      assert !HasNewer(o, dbTime, [n.entry]);
    }
  }

  class CheckingMethod0 {
    const cmdline: Options
    var dbTime: FileTime
    var changed: bool
    /** The entries examined so far, in order. */
    ghost var visited: seq<DirectoryEntry>

    constructor (cmdline: Options)
      ensures this.cmdline == cmdline && dbTime == 0 && !changed && visited == []
    {
      this.cmdline := cmdline;
      dbTime := 0;
      changed := false;
      visited := [];
    }

    /** `readDB`: the snapshot file's last-write time, 0 when it cannot be read. */
    method ReadDB(dbLastWriteTime: FileTime)
      modifies this`dbTime
      ensures dbTime == dbLastWriteTime
    {
      dbTime := dbLastWriteTime;
    }

    /** `writeDB`: opening the snapshot file for writing truncates it, so it is left
        empty with a new last-write time, which the next run reads; None when it cannot
        be opened. */
    method WriteDB(canOpen: bool) returns (file: Option<seq<byte>>)
      ensures canOpen <==> file.Some?
      ensures file.Some? ==> file.value == []
    {
      if !canOpen {
        return None;
      }
      return Some([]);
    }

    /** `check`: a hit anywhere sets the change flag. */
    method Check(fs: Filesystem) returns (r: bool)
      modifies this`changed, this`visited
      ensures r == Changed(cmdline, dbTime, fs)
      ensures changed == (old(changed) || r)
      ensures visited == old(visited) + ScannedPrefix(cmdline, dbTime, WalkAll(cmdline, Roots(fs, cmdline.targets)))
    {
      r := CheckTargets(fs, cmdline.targets);
      if r {
        changed := true;
      }
    }

    /** The loop of `check`: the targets in command-line order, stopping at the first
        one whose scan finds a newer entry. */
    method CheckTargets(fs: Filesystem, targets: seq<PathString>) returns (hit: bool)
      modifies this`visited
      ensures hit == HasNewer(cmdline, dbTime, WalkAll(cmdline, Roots(fs, targets)))
      ensures visited == old(visited) + ScannedPrefix(cmdline, dbTime, WalkAll(cmdline, Roots(fs, targets)))
    {
      ghost var roots := Roots(fs, targets);
      ghost var seen: seq<DirectoryEntry> := [];
      for i := 0 to |targets|
        invariant seen == WalkAll(cmdline, roots[..i])
        invariant visited == old(visited) + seen
        invariant !HasNewer(cmdline, dbTime, seen)
      {
        ghost var mid := visited;
        hit := CheckPath(fs, targets[i]);
        assert roots[i] == fs(targets[i]);
        ScanStep(cmdline, dbTime, roots, i, seen, old(visited), mid, visited, hit);
        if hit {
          return true;
        }
        seen := seen + Walk(cmdline, roots[i]);
      }
      ScanEnds(cmdline, dbTime, roots, seen);
      return false;
    }

    /** `checkPath`: the entry at a command-line path. */
    method CheckPath(fs: Filesystem, path: PathString) returns (hit: bool)
      modifies this`visited
      ensures hit == HasNewer(cmdline, dbTime, Walk(cmdline, fs(path)))
      ensures visited == old(visited) + ScannedPrefix(cmdline, dbTime, Walk(cmdline, fs(path)))
    {
      hit := CheckEntry(fs(path));
    }

    /** `checkEntry`: the entry itself when in scope, then, for a directory under `-r`,
        its enumeration. */
    method CheckEntry(n: Node) returns (hit: bool)
      modifies this`visited
      ensures hit == HasNewer(cmdline, dbTime, Walk(cmdline, n))
      ensures visited == old(visited) + ScannedPrefix(cmdline, dbTime, Walk(cmdline, n))
      decreases n, 1
    {
      ScanOfNode(cmdline, dbTime, n);
      visited := visited + [n.entry];
      if IsEntryTarget(cmdline, n.entry) {
        var newer := CheckTargetEntry(n.entry);
        if newer {
          return true;
        }
      }
      if n.entry.IsDirectory() && cmdline.includesSubEntriesInTarget {
        hit := CheckDirectorySubEntries(n.children);
        if hit {
          return true;
        }
      }
      return false;
    }

    /** `checkDirectorySubEntries`: the enumeration in order, stopping at the first hit. */
    method CheckDirectorySubEntries(ns: seq<Node>) returns (hit: bool)
      modifies this`visited
      ensures hit == HasNewer(cmdline, dbTime, WalkAll(cmdline, ns))
      ensures visited == old(visited) + ScannedPrefix(cmdline, dbTime, WalkAll(cmdline, ns))
      decreases ns, 0
    {
      ghost var seen: seq<DirectoryEntry> := [];
      for i := 0 to |ns|
        invariant seen == WalkAll(cmdline, ns[..i])
        invariant visited == old(visited) + seen
        invariant !HasNewer(cmdline, dbTime, seen)
      {
        ghost var mid := visited;
        hit := CheckEntry(ns[i]);
        ScanStep(cmdline, dbTime, ns, i, seen, old(visited), mid, visited, hit);
        if hit {
          return true;
        }
        seen := seen + Walk(cmdline, ns[i]);
      }
      ScanEnds(cmdline, dbTime, ns, seen);
      return false;
    }

    /** `checkTargetEntry`. */
    method CheckTargetEntry(e: DirectoryEntry) returns (newer: bool)
      ensures newer <==> e.lastWriteTime > dbTime
    {
      newer := e.lastWriteTime > dbTime;
    }
  }

  /** With no snapshot file the reference time is 0, so any in-scope entry with a
      non-zero last-write time is a change. */
  lemma {:induction false} MissingSnapshotDetectsAnyWrite(o: Options, fs: Filesystem, i: nat)
    requires i < |WalkAll(o, Roots(fs, o.targets))|
    requires var e := WalkAll(o, Roots(fs, o.targets))[i]; IsEntryTarget(o, e) && e.lastWriteTime > 0
    ensures Changed(o, 0, fs)
  {
    HasNewerExists(o, 0, WalkAll(o, Roots(fs, o.targets)));
  }

  /** A later reference time can only turn a change into no change, never the reverse. */
  lemma {:induction false} ChangedAntitone(o: Options, t1: FileTime, t2: FileTime, fs: Filesystem)
    requires t1 <= t2 && Changed(o, t2, fs)
    ensures Changed(o, t1, fs)
  {
    var es := WalkAll(o, Roots(fs, o.targets));
    HasNewerExists(o, t1, es);
    HasNewerExists(o, t2, es);
    var i :| 0 <= i < |es| && IsNewer(o, t2, es[i]);
    assert IsNewer(o, t1, es[i]);
  }

  /** When nothing in scope was written after the snapshot file, the verdict is "no
      change", whatever else the targets hold. */
  lemma {:induction false} NothingNewerIsUnchanged(o: Options, dbTime: FileTime, fs: Filesystem)
    requires forall e :: e in WalkAll(o, Roots(fs, o.targets)) && IsEntryTarget(o, e) ==> e.lastWriteTime <= dbTime
    ensures !Changed(o, dbTime, fs)
  {
    var es := WalkAll(o, Roots(fs, o.targets));
    HasNewerExists(o, dbTime, es);
    forall i | 0 <= i < |es|
      ensures !IsNewer(o, dbTime, es[i])
    {
      assert es[i] in es;
    }
  }
}
