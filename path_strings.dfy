/** The path-string library of the Win32 file-system layer: where a path's file name
    starts, its directory part, trailing separators that can be dropped, and joining a
    directory with a name. Paths are byte strings (`std::string` of `char`); both `\`
    and `/` separate components. Only the single-byte character set is modelled. */
module PathStrings {
  import opened Basics

  /** One `char` of a `std::string`: a byte value. */
  type PathChar = c: char | c as int < 0x100
  type PathString = seq<PathChar>

  predicate IsSeparator(c: PathChar) {
    c == '\\' || c == '/'
  }

  /** No separator at or after index `from`. */
  predicate NoSeparatorFrom(s: PathString, from: nat) {
    forall k :: from <= k < |s| ==> !IsSeparator(s[k])
  }

  /** Index of the last separator of `s`, None where `find_last_char` returns npos. */
  function LastSeparator(s: PathString): (r: Option<nat>)
    ensures r.Some? ==> r.value < |s| && IsSeparator(s[r.value]) && NoSeparatorFrom(s, r.value + 1)
    ensures r.None? ==> NoSeparatorFrom(s, 0)
  {
    if s == [] then None
    else if IsSeparator(s[|s| - 1]) then Some(|s| - 1)
    else LastSeparator(s[..|s| - 1])
  }

  /** `find_last_char(s, is_separator())`: a forward scan remembering the last hit. */
  method FindLastSeparator(s: PathString) returns (lastPos: Option<nat>)
    ensures lastPos == LastSeparator(s)
  {
    lastPos := None;
    for i := 0 to |s|
      invariant lastPos == LastSeparator(s[..i])
    {
      assert s[..i + 1][..i] == s[..i];
      if IsSeparator(s[i]) {
        lastPos := Some(i);
      }
    }
    assert s[..|s|] == s;
  }

  /** `\\Server`: two leading separators and none after them. */
  predicate IsServerName(s: PathString) {
    |s| >= 3 && IsSeparator(s[0]) && IsSeparator(s[1]) && NoSeparatorFrom(s, 2)
  }

  /** `C:a`: no separator, at least three characters, and a colon at index 1. */
  predicate IsDriveRelativeName(s: PathString) {
    |s| >= 3 && s[1] == ':' && NoSeparatorFrom(s, 0)
  }

  /** Where the last file-name component of `s` starts. */
  function GetPathFileNamePos(s: PathString): (r: nat)
    ensures r <= |s|
    ensures s == [] || IsSeparator(s[|s| - 1]) ==> r == |s|
    ensures IsServerName(s) ==> r == 0
    ensures IsDriveRelativeName(s) ==> r == 2
    ensures s != [] && !IsSeparator(s[|s| - 1]) && !IsServerName(s) && !IsDriveRelativeName(s) ==>
              r < |s| && (r == 0 || IsSeparator(s[r - 1])) && NoSeparatorFrom(s, r)
  {
    var lastSep := LastSeparator(s);
    var afterSep := if lastSep.None? then 0 else lastSep.value + 1;
    if afterSep >= |s| then
      |s|
    else if lastSep == Some(1) && IsSeparator(s[0]) then
      0
    else if lastSep.None? && |s| >= 3 && s[1] == ':' then
      2
    else
      afterSep
  }

  /** The last file-name component: everything from `GetPathFileNamePos`. */
  function GetPathFileNamePart(s: PathString): (r: PathString)
    ensures |r| <= |s| && r == s[|s| - |r|..]
    ensures |s| - |r| == GetPathFileNamePos(s)
  {
    s[GetPathFileNamePos(s)..]
  }

  /** Everything before the file name, keeping the last separator. */
  function GetPathNotFileNamePart(s: PathString): (r: PathString)
    ensures |r| == GetPathFileNamePos(s) && r == s[..|r|]
  {
    s[..GetPathFileNamePos(s)]
  }

  /** Both parts split `s` at the same position, so together they give `s` back. */
  lemma {:induction false} SplitPathRoundTrip(s: PathString)
    ensures GetPathNotFileNamePart(s) + GetPathFileNamePart(s) == s
  {
    assert s[..GetPathFileNamePos(s)] + s[GetPathFileNamePos(s)..] == s;
  }

  /** A final separator that can be dropped without changing the meaning: the character
      before it exists and is not `:` (`C:\`), `?` (`\\?\`) or NUL. */
  predicate TerminatedByRedundantSeparator(s: PathString) {
    |s| >= 2 && IsSeparator(s[|s| - 1])
    && s[|s| - 2] != ':' && s[|s| - 2] != '?' && s[|s| - 2] != '\0'
  }

  /** `isPathTerminatedByRedundantSeparator`: one scan that remembers the last separator
      and the character before it. */
  method IsPathTerminatedByRedundantSeparator(s: PathString) returns (r: bool)
    ensures r == TerminatedByRedundantSeparator(s)
  {
    var lastSepPos: nat := |s|;
    var prevChar: PathChar := '\0';
    var lastSepPrevChar: PathChar := '\0';
    var pos: nat := 0;
    while pos < |s|
      invariant 0 <= pos <= |s|
      invariant prevChar == if pos == 0 then '\0' else s[pos - 1]
      invariant lastSepPos == |s| ==> forall k :: 0 <= k < pos ==> !IsSeparator(s[k])
      invariant lastSepPos != |s| ==>
                  lastSepPos < pos <= |s| && IsSeparator(s[lastSepPos])
                  && (forall k :: lastSepPos < k < pos ==> !IsSeparator(s[k]))
                  && lastSepPrevChar == if lastSepPos == 0 then '\0' else s[lastSepPos - 1]
    {
      var currChar := s[pos];
      if IsSeparator(currChar) {
        lastSepPos := pos;
        lastSepPrevChar := prevChar;
      }
      prevChar := currChar;
      pos := pos + 1;
    }
    r := lastSepPos + 1 == |s|
         && lastSepPrevChar != ':' && lastSepPrevChar != '?' && lastSepPrevChar != '\0';
  }

  /** Drops the final character exactly when it is a redundant separator. */
  function GetPathWithoutLastRedundantSeparator(s: PathString): (r: PathString)
    ensures |r| <= |s| <= |r| + 1 && r == s[..|r|]
    ensures |r| < |s| <==> TerminatedByRedundantSeparator(s)
  {
    if TerminatedByRedundantSeparator(s) then s[..|s| - 1] else s
  }

  /** The directory that holds the last component: the part before the file name,
      without a redundant trailing separator. */
  function GetPathDirectoryPart(s: PathString): (r: PathString)
    ensures |r| <= GetPathFileNamePos(s) && r == s[..|r|]
  {
    GetPathWithoutLastRedundantSeparator(GetPathNotFileNamePart(s))
  }

  /** `concatPath`: joins a directory and a name. A separator is added unless `a` already
      ends in a redundant one, so after a needed separator (`C:\`) a second one is added. */
  function ConcatPath(a: PathString, b: PathString): (r: PathString)
    ensures a == [] ==> r == b
    ensures a != [] && b == [] ==> r == a
    ensures a != [] && b != [] ==> (r == a + b || r == a + ['\\'] + b)
    ensures a != [] && b != [] ==> (r == a + b <==> TerminatedByRedundantSeparator(a))
  {
    if a == [] then b
    else if b == [] then a
    else if TerminatedByRedundantSeparator(a) then a + b
    else a + ['\\'] + b
  }

  /** Splitting an ordinary path `dir\name` and joining the parts again gives the path
      back: `dir` is non-empty and does not end in a separator, `:`, `?` or NUL, and
      `name` is a non-empty component. */
  lemma {:induction false} JoinSplitPath(dir: PathString, name: PathString)
    requires dir != [] && name != [] && NoSeparatorFrom(name, 0)
    requires var c := dir[|dir| - 1]; !IsSeparator(c) && c != ':' && c != '?' && c != '\0'
    ensures var p := dir + ['\\'] + name;
            GetPathDirectoryPart(p) == dir && GetPathFileNamePart(p) == name
            && ConcatPath(GetPathDirectoryPart(p), GetPathFileNamePart(p)) == p
  {
    var p := dir + ['\\'] + name;
    assert p[|dir|] == '\\';
    assert forall k :: |dir| < k < |p| ==> p[k] == name[k - |dir| - 1];
    assert LastSeparator(p) == Some(|dir|);
    assert GetPathFileNamePos(p) == |dir| + 1 by {
      if |dir| == 1 {
        assert !IsSeparator(p[0]);
      }
    }
    assert GetPathNotFileNamePart(p) == dir + ['\\'];
    assert GetPathFileNamePart(p) == name;
    assert TerminatedByRedundantSeparator(dir + ['\\']);
    assert (dir + ['\\'])[..|dir|] == dir;
  }

  /** The separator after a drive root is not redundant, so joining `C:\` and `x` yields
      `C:\\x` with the separator doubled. */
  lemma {:induction false} ConcatAfterDriveRootDoublesSeparator()
    ensures ConcatPath("C:\\", "x") == "C:\\\\x"
  {
  }

  /** The documented special cases of the file-name position: a server name and a
      drive-relative name. */
  lemma {:induction false} FileNamePosSpecialExamples()
    ensures GetPathFileNamePos("\\\\Server") == 0
    ensures GetPathFileNamePos("C:a") == 2
  {
    assert IsServerName("\\\\Server");
    assert IsDriveRelativeName("C:a");
  }

  /** The documented ordinary examples of the file-name position. */
  lemma {:induction false} FileNamePosExamples()
    ensures GetPathFileNamePos("\\\\Server\\a") == 9
    ensures GetPathFileNamePos("C:") == 0
    ensures GetPathFileNamePos("C:\\a\\") == 5
    ensures GetPathFileNamePos("a/b") == 2
    ensures GetPathFileNamePos("") == 0
  {
  }

  /** The documented examples of redundant trailing separators. */
  lemma {:induction false} RedundantSeparatorExamples()
    ensures TerminatedByRedundantSeparator("C:\\a\\")
    ensures !TerminatedByRedundantSeparator("C:\\")
    ensures !TerminatedByRedundantSeparator("\\\\?\\")
    ensures !TerminatedByRedundantSeparator("\\")
    ensures TerminatedByRedundantSeparator(".\\")
    ensures TerminatedByRedundantSeparator("C:a\\")
  {
  }
}
