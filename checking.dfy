/** What the three checking methods share: which entries are in scope, and the order in
    which a scan meets entries — each command-line target, then, for a directory when
    `-r` is given, its enumeration, depth first. */
module Checking {
  import opened Basics
  import opened PathStrings
  import opened Entries
  import opened CommandLines

  /** `isEntryTarget`: a directory when `-d` is given, or a regular file whose name
      passes the extension allow-list. */
  predicate IsEntryTarget(o: Options, e: DirectoryEntry) {
    (e.IsDirectory() && o.includesDirectoryInTarget)
    || (e.IsRegularFile() && MatchesExtensions(o.targetExtensions, e.filename))
  }

  /** An entry whose metadata could not be read is never in scope; a directory is in scope
      exactly when `-d` is given; with no `-ext`, every regular file is in scope. */
  lemma {:induction false} EntryTargetCases(o: Options, e: DirectoryEntry)
    ensures e.fileType == FILETYPE_ERROR ==> !IsEntryTarget(o, e)
    ensures e.IsDirectory() ==> (IsEntryTarget(o, e) <==> o.includesDirectoryInTarget)
    ensures e.IsRegularFile() ==> (IsEntryTarget(o, e) <==> MatchesExtensions(o.targetExtensions, e.filename))
    ensures e.IsRegularFile() && o.targetExtensions == [] ==> IsEntryTarget(o, e)
    ensures !e.IsDirectory() && !e.IsRegularFile() ==> !IsEntryTarget(o, e)
  {
  }

  /** The scan goes below an entry exactly when it is a directory and `-r` is given. */
  predicate Descends(o: Options, e: DirectoryEntry) {
    e.IsDirectory() && o.includesSubEntriesInTarget
  }

  /** The root node of each command-line target, in command-line order. */
  function Roots(fs: Filesystem, targets: seq<PathString>): seq<Node> {
    seq(|targets|, i requires 0 <= i < |targets| => fs(targets[i]))
  }

  /** The nodes' own entries, in order. */
  function EntriesOf(ns: seq<Node>): (es: seq<DirectoryEntry>)
    ensures |es| == |ns| && forall i :: 0 <= i < |ns| ==> es[i] == ns[i].entry
  {
    seq(|ns|, i requires 0 <= i < |ns| => ns[i].entry)
  }

  lemma {:induction false} EntriesOfSnoc(ns: seq<Node>, i: int)
    requires 0 <= i < |ns|
    ensures EntriesOf(ns[..i + 1]) == EntriesOf(ns[..i]) + [ns[i].entry]
  {
  }

  /** The entries met when scanning from `n`: `n` itself, then, if the scan descends, the
      entries met below each child in enumeration order. */
  function Walk(o: Options, n: Node): seq<DirectoryEntry>
    decreases n, 1
  {
    [n.entry] + if Descends(o, n.entry) then WalkAll(o, n.children) else []
  }

  /** The entries met when scanning each of `ns` in turn. */
  function WalkAll(o: Options, ns: seq<Node>): seq<DirectoryEntry>
    decreases ns, 0
  {
    if ns == [] then [] else WalkAll(o, ns[..|ns| - 1]) + Walk(o, ns[|ns| - 1])
  }

  /** Scanning one more node extends the walk by that node's walk. */
  lemma {:induction false} WalkAllAppend(o: Options, ns: seq<Node>, n: Node)
    ensures WalkAll(o, ns + [n]) == WalkAll(o, ns) + Walk(o, n)
  {
    assert (ns + [n])[..|ns|] == ns;
  }

  /** Scanning `a` then `b` meets the entries of both walks, in that order. */
  lemma {:induction false} WalkAllConcat(o: Options, a: seq<Node>, b: seq<Node>)
    ensures WalkAll(o, a + b) == WalkAll(o, a) + WalkAll(o, b)
    decreases |b|
  {
    if b == [] {
      assert a + b == a;
    } else {
      var init := b[..|b| - 1];
      WalkAllConcat(o, a, init);
      assert (a + b)[..|a + b| - 1] == a + init;
      assert (a + b)[|a + b| - 1] == b[|b| - 1];
    }
  }

  /** The walk of `ns` around its `i`th node. */
  lemma {:induction false} WalkAllSplit(o: Options, ns: seq<Node>, i: nat)
    requires i < |ns|
    ensures WalkAll(o, ns) == WalkAll(o, ns[..i]) + (Walk(o, ns[i]) + WalkAll(o, ns[i + 1..]))
  {
    assert ns == ns[..i] + [ns[i]] + ns[i + 1..];
    WalkAllConcat(o, ns[..i] + [ns[i]], ns[i + 1..]);
    WalkAllConcat(o, ns[..i], [ns[i]]);
    assert [ns[i]][..0] == [];
  }

  /** Without `-r` a scan meets the targets' own entries and nothing else. */
  lemma {:induction false} WalkWithoutRecursion(o: Options, ns: seq<Node>)
    requires !o.includesSubEntriesInTarget
    ensures WalkAll(o, ns) == EntriesOf(ns)
    decreases |ns|
  {
    if ns != [] {
      WalkWithoutRecursion(o, ns[..|ns| - 1]);
      EntriesOfSnoc(ns, |ns| - 1);
      assert ns[..|ns|] == ns;
    }
  }

  /** The in-scope entries of `es`, in order. */
  function InScope(o: Options, es: seq<DirectoryEntry>): seq<DirectoryEntry>
    decreases |es|
  {
    if es == [] then []
    else
      var init := InScope(o, es[..|es| - 1]);
      if IsEntryTarget(o, es[|es| - 1]) then init + [es[|es| - 1]] else init
  }

  /** The filter keeps exactly the in-scope entries, and no more of them than there are. */
  lemma {:induction false} InScopeMembers(o: Options, es: seq<DirectoryEntry>)
    ensures |InScope(o, es)| <= |es|
    ensures forall e :: e in InScope(o, es) <==> e in es && IsEntryTarget(o, e)
    decreases |es|
  {
    if es != [] {
      var last := es[|es| - 1];
      InScopeMembers(o, es[..|es| - 1]);
      assert es == es[..|es| - 1] + [last];
    }
  }

  lemma {:induction false} InScopeAppend(o: Options, a: seq<DirectoryEntry>, b: seq<DirectoryEntry>)
    ensures InScope(o, a + b) == InScope(o, a) + InScope(o, b)
    decreases |b|
  {
    if b == [] {
      assert a + b == a;
    } else {
      assert (a + b)[..|a + b| - 1] == a + b[..|b| - 1];
      InScopeAppend(o, a, b[..|b| - 1]);
    }
  }
}
