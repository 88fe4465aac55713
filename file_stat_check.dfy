/** Checking method 2 ("filestat", the default): every in-scope entry met by the scan is
    looked up by its full path in the snapshot and compared on type, size and last-write
    time. The targets have changed when an entry is new, differs from the snapshot's, is
    met twice, or an entry of the snapshot was not met again. */
module FileStatCheck {
  import opened Basics
  import opened PathStrings
  import opened Entries
  import opened CommandLines
  import opened Checking
  import opened Drains
  import opened BinaryIO
  import opened RecordLists

  /** The comparison of `checkTargetEntry`: type, last-write time and size all agree. */
  predicate SameStat(now: DirectoryEntry, before: DirectoryEntry) {
    now.fileType == before.fileType && now.lastWriteTime == before.lastWriteTime && now.size == before.size
  }

  /** Each entry keyed by its full path, as `checkTargetEntry` looks it up. */
  function Keyed(es: seq<DirectoryEntry>): (r: seq<(PathString, DirectoryEntry)>)
    ensures |r| == |es| && forall i :: 0 <= i < |es| ==> r[i] == (es[i].GetPath(), es[i])
  {
    seq(|es|, i requires 0 <= i < |es| => (es[i].GetPath(), es[i]))
  }

  /** The paths looked up are exactly the full paths of the entries. */
  lemma {:induction false} KeyedKeys(es: seq<DirectoryEntry>)
    ensures Keys(Keyed(es)) == set e | e in es :: e.GetPath()
  {
    var r := Keyed(es);
    forall p | p in Keys(r) ensures p in set e | e in es :: e.GetPath() {
      var i :| 0 <= i < |r| && r[i].0 == p;
      assert es[i] in es;
    }
    forall p | p in set e | e in es :: e.GetPath() ensures p in Keys(r) {
      var e :| e in es && e.GetPath() == p;
      var i :| 0 <= i < |es| && es[i] == e;
      assert r[i].0 == p;
    }
  }

  /** In a well-formed file system, an ordinary command-line target `dir\name` is looked up
      in the snapshot under that same path, and its entry has that directory and name. */
  lemma {:induction false} TargetLookedUpUnderItsPath(fs: Filesystem, stats: PathString -> Option<FileAttributeData>,
                                                     dir: PathString, name: PathString)
    requires WellFormed(fs, stats)
    requires dir != [] && name != [] && NoSeparatorFrom(name, 0)
    requires var c := dir[|dir| - 1]; !IsSeparator(c) && c != ':' && c != '?' && c != '\0'
    ensures var p := dir + ['\\'] + name;
            fs(p).entry.dir == dir && fs(p).entry.filename == name
            && Keyed([fs(p).entry]) == [(p, fs(p).entry)]
  {
    var p := dir + ['\\'] + name;
    assert fs(p).entry == GetPathDirectoryEntry(p, stats(p));
    JoinSplitPath(dir, name);
  }

  lemma {:induction false} KeyedAppend(a: seq<DirectoryEntry>, b: seq<DirectoryEntry>)
    ensures Keyed(a + b) == Keyed(a) + Keyed(b)
  {
    assert forall i :: 0 <= i < |a + b| ==> Keyed(a + b)[i] == (Keyed(a) + Keyed(b))[i];
  }

  // ---------------------------------------------------------------------------
  // What a scan produces
  // ---------------------------------------------------------------------------

  /** The in-scope entries of a scan of the targets, in the order they are met. */
  function ScannedTargets(o: Options, fs: Filesystem): seq<DirectoryEntry> {
    InScope(o, WalkAll(o, Roots(fs, o.targets)))
  }

  /** The verdict of a scan against a snapshot `prev`. */
  predicate Changed(o: Options, fs: Filesystem, prev: map<PathString, DirectoryEntry>) {
    var d := Drain(Keyed(ScannedTargets(o, fs)), DrainState(prev, false), SameStat);
    d.changed || d.prev != map[]
  }

  /** The in-scope entries met from `n`: `n`'s own entry when in scope, then those met
      below it when the scan descends. */
  lemma {:induction false} InScopeWalk(o: Options, n: Node)
    ensures InScope(o, Walk(o, n)) ==
            (if IsEntryTarget(o, n.entry) then [n.entry] else [])
            + (if Descends(o, n.entry) then InScope(o, WalkAll(o, n.children)) else [])
  {
    var below := if Descends(o, n.entry) then WalkAll(o, n.children) else [];
    assert Walk(o, n) == [n.entry] + below;
    InScopeAppend(o, [n.entry], below);
    InScopeSingle(o, n.entry);
  }

  lemma {:induction false} InScopeSingle(o: Options, e: DirectoryEntry)
    ensures InScope(o, [e]) == if IsEntryTarget(o, e) then [e] else []
  {
    assert [e][..0] == [];
  }

  /** Pushing `a` and then `b`, and draining with each, is pushing and draining `a + b`. */
  lemma {:induction false} Extend(a: seq<DirectoryEntry>, b: seq<DirectoryEntry>,
                                  t0: seq<DirectoryEntry>, s0: DrainState<DirectoryEntry>,
                                  tMid: seq<DirectoryEntry>, sMid: DrainState<DirectoryEntry>,
                                  t1: seq<DirectoryEntry>, s1: DrainState<DirectoryEntry>)
    requires tMid == t0 + a && sMid == Drain(Keyed(a), s0, SameStat)
    requires t1 == tMid + b && s1 == Drain(Keyed(b), sMid, SameStat)
    ensures t1 == t0 + (a + b) && s1 == Drain(Keyed(a + b), s0, SameStat)
  {
    AppendAssoc(t0, a, b);
    KeyedAppend(a, b);
    DrainConcat(Keyed(a), Keyed(b), s0, SameStat);
  }

  /** Scanning a node: its own entry when in scope, then what lies below it when the scan
      descends, pushed and drained in that order. */
  lemma {:induction false} EntryStep(o: Options, n: Node,
                                     t0: seq<DirectoryEntry>, s0: DrainState<DirectoryEntry>,
                                     tMid: seq<DirectoryEntry>, sMid: DrainState<DirectoryEntry>,
                                     t1: seq<DirectoryEntry>, s1: DrainState<DirectoryEntry>)
    requires IsEntryTarget(o, n.entry) ==> tMid == t0 + [n.entry] && sMid == Drain(Keyed([n.entry]), s0, SameStat)
    requires !IsEntryTarget(o, n.entry) ==> tMid == t0 && sMid == s0
    requires Descends(o, n.entry) ==>
               t1 == tMid + InScope(o, WalkAll(o, n.children)) && s1 == Drain(Keyed(InScope(o, WalkAll(o, n.children))), sMid, SameStat)
    requires !Descends(o, n.entry) ==> t1 == tMid && s1 == sMid
    ensures t1 == t0 + InScope(o, Walk(o, n)) && s1 == Drain(Keyed(InScope(o, Walk(o, n))), s0, SameStat)
  {
    InScopeWalk(o, n);
    ExtendIf(IsEntryTarget(o, n.entry), Descends(o, n.entry), n.entry, InScope(o, WalkAll(o, n.children)),
             InScope(o, Walk(o, n)), t0, s0, tMid, sMid, t1, s1);
  }

  /** `Extend` for an optional entry followed by an optional sequence of entries. */
  lemma {:induction false} ExtendIf(c1: bool, c2: bool, e: DirectoryEntry, below: seq<DirectoryEntry>, w: seq<DirectoryEntry>,
                                    t0: seq<DirectoryEntry>, s0: DrainState<DirectoryEntry>,
                                    tMid: seq<DirectoryEntry>, sMid: DrainState<DirectoryEntry>,
                                    t1: seq<DirectoryEntry>, s1: DrainState<DirectoryEntry>)
    requires w == (if c1 then [e] else []) + (if c2 then below else [])
    requires c1 ==> tMid == t0 + [e] && sMid == Drain(Keyed([e]), s0, SameStat)
    requires !c1 ==> tMid == t0 && sMid == s0
    requires c2 ==> t1 == tMid + below && s1 == Drain(Keyed(below), sMid, SameStat)
    requires !c2 ==> t1 == tMid && s1 == sMid
    ensures t1 == t0 + w && s1 == Drain(Keyed(w), s0, SameStat)
  {
    var own: seq<DirectoryEntry> := if c1 then [e] else [];
    var rest := if c2 then below else [];
    if !c1 {
      NothingPushed(s0);
      assert tMid == t0 + own;
    }
    if !c2 {
      NothingPushed(sMid);
      assert t1 == tMid + rest;
    }
    Extend(own, rest, t0, s0, tMid, sMid, t1, s1);
  }

  lemma {:induction false} NothingPushed(s: DrainState<DirectoryEntry>)
    ensures Drain(Keyed([]), s, SameStat) == s
  {
    assert Keyed([]) == [];
  }

  /** One scanned node more: the pushed entries and the drained snapshot both extend by
      that node's in-scope entries. */
  lemma {:induction false} TargetStep(o: Options, ns: seq<Node>, i: int,
                                      t0: seq<DirectoryEntry>, s0: DrainState<DirectoryEntry>,
                                      tMid: seq<DirectoryEntry>, sMid: DrainState<DirectoryEntry>,
                                      t1: seq<DirectoryEntry>, s1: DrainState<DirectoryEntry>)
    requires 0 <= i < |ns|
    requires tMid == t0 + InScope(o, WalkAll(o, ns[..i])) && sMid == Drain(Keyed(InScope(o, WalkAll(o, ns[..i]))), s0, SameStat)
    requires t1 == tMid + InScope(o, Walk(o, ns[i])) && s1 == Drain(Keyed(InScope(o, Walk(o, ns[i]))), sMid, SameStat)
    ensures t1 == t0 + InScope(o, WalkAll(o, ns[..i + 1]))
    ensures s1 == Drain(Keyed(InScope(o, WalkAll(o, ns[..i + 1]))), s0, SameStat)
  {
    InScopePrefixStep(o, ns, i);
    Extend(InScope(o, WalkAll(o, ns[..i])), InScope(o, Walk(o, ns[i])), t0, s0, tMid, sMid, t1, s1);
  }

  /** The in-scope entries met scanning one node more. */
  lemma {:induction false} InScopePrefixStep(o: Options, ns: seq<Node>, i: int)
    requires 0 <= i < |ns|
    ensures InScope(o, WalkAll(o, ns[..i + 1])) == InScope(o, WalkAll(o, ns[..i])) + InScope(o, Walk(o, ns[i]))
  {
    assert ns[..i + 1] == ns[..i] + [ns[i]];
    WalkAllAppend(o, ns[..i], ns[i]);
    InScopeAppend(o, WalkAll(o, ns[..i]), Walk(o, ns[i]));
  }

  // ---------------------------------------------------------------------------
  // The snapshot file
  // ---------------------------------------------------------------------------

  /** `DB_MAGIC`: the bytes "dfc2" read as a little-endian `unsigned int`. */
  const MAGIC2: nat := 0x3263_6664

  lemma {:induction false} Magic2Bytes()
    ensures MAGIC2 < Pow256(U32_BYTES)
    ensures LE(MAGIC2, U32_BYTES) == [0x64, 0x66, 0x63, 0x32]
  {
  }

  /** One target as the file holds it: the full path, then the type, size and time. */
  datatype TargetRecord = TargetRecord(path: PathString, fileType: FileType, size: FileSize, lastWriteTime: FileTime)

  /** What `writeDB` writes for an entry. */
  function RecordOf(e: DirectoryEntry): TargetRecord {
    TargetRecord(e.GetPath(), e.fileType, e.size, e.lastWriteTime)
  }

  function Records(es: seq<DirectoryEntry>): (rs: seq<TargetRecord>)
    ensures |rs| == |es| && forall i :: 0 <= i < |es| ==> rs[i] == RecordOf(es[i])
  {
    seq(|es|, i requires 0 <= i < |es| => RecordOf(es[i]))
  }

  /** What `readDB` rebuilds from a record: the path split into directory and name again,
      with the stored type, size and time. */
  function EntryOf(r: TargetRecord): (e: DirectoryEntry)
    ensures e.dir == GetPathDirectoryPart(r.path) && e.filename == GetPathFileNamePart(r.path)
    ensures e.fileType == r.fileType && e.size == r.size && e.lastWriteTime == r.lastWriteTime
  {
    DirectoryEntry(GetPathDirectoryPart(r.path), GetPathFileNamePart(r.path), r.fileType, r.size, r.lastWriteTime)
  }

  /** An entry written and rebuilt compares equal to itself: splitting the path again
      may not give back the directory and name, but only the statistics are compared. */
  lemma {:induction false} RebuiltEntrySame(e: DirectoryEntry)
    ensures SameStat(e, EntryOf(RecordOf(e)))
    ensures RecordOf(EntryOf(RecordOf(e))).fileType == e.fileType
  {
  }

  /** An entry whose directory and name `concatPath` joins with one `\` and that splitting
      the joined path gives back: a non-empty directory not ending in a separator, `:`,
      `?` or NUL, and a non-empty name without separators. */
  predicate OrdinaryEntry(e: DirectoryEntry) {
    e.dir != [] && e.filename != [] && NoSeparatorFrom(e.filename, 0)
    && var c := e.dir[|e.dir| - 1]; !IsSeparator(c) && c != ':' && c != '?' && c != '\0'
  }

  /** For an ordinary entry, the entry `readDB` rebuilds from its record is the entry
      itself, directory and name included. */
  lemma {:induction false} RebuiltEntryExact(e: DirectoryEntry)
    requires OrdinaryEntry(e)
    ensures RecordOf(e).path == e.dir + ['\\'] + e.filename
    ensures EntryOf(RecordOf(e)) == e
  {
    assert !TerminatedByRedundantSeparator(e.dir);
    JoinSplitPath(e.dir, e.filename);
  }

  /** The `(path, entry)` pairs `readDB` `insert`s for the records. */
  function Items(rs: seq<TargetRecord>): (r: seq<(PathString, DirectoryEntry)>)
    ensures |r| == |rs| && forall i :: 0 <= i < |rs| ==> r[i] == (rs[i].path, EntryOf(rs[i]))
  {
    seq(|rs|, i requires 0 <= i < |rs| => (rs[i].path, EntryOf(rs[i])))
  }

  /** When every entry is ordinary, the pairs `readDB` inserts for the records written are
      the pairs `checkTargetEntry` looks up: the same paths and the same entries. */
  lemma {:induction false} SnapshotItemsAreKeyed(es: seq<DirectoryEntry>)
    requires forall i :: 0 <= i < |es| ==> OrdinaryEntry(es[i])
    ensures Items(Records(es)) == Keyed(es)
  {
    forall i | 0 <= i < |es| ensures Items(Records(es))[i] == Keyed(es)[i] {
      RebuiltEntryExact(es[i]);
    }
  }

  lemma {:induction false} ItemsSnoc(rs: seq<TargetRecord>, r: TargetRecord)
    ensures Items(rs + [r]) == Items(rs) + [(r.path, EntryOf(r))]
  {
    assert forall i :: 0 <= i < |rs| + 1 ==> Items(rs + [r])[i] == (Items(rs) + [(r.path, EntryOf(r))])[i];
  }

  /** The type, size and time of a record. */
  function EncodeStat(r: TargetRecord): (bs: seq<byte>)
    ensures |bs| == U32_BYTES + 2 * U64_BYTES
  {
    Pow256Widths();
    LE(r.fileType as nat, U32_BYTES) + LE(r.size as nat, U64_BYTES) + LE(r.lastWriteTime as nat, U64_BYTES)
  }

  /** One target of the list: its path, then its statistics. */
  function EncodeTarget(r: TargetRecord): (bs: seq<byte>)
    ensures |bs| == SIZE_T_BYTES + |r.path| + U32_BYTES + 2 * U64_BYTES
  {
    EncodeString(r.path) + EncodeStat(r)
  }

  /** What `writeDB` writes: the magic, the number of targets and each target in the
      order it was met. */
  function EncodeDB2(es: seq<DirectoryEntry>): seq<byte> {
    Pow256Widths();
    LE(MAGIC2, U32_BYTES) + LE(SizeT(|es|) as nat, SIZE_T_BYTES) + EncodeList(EncodeTarget, Records(es))
  }

  /** The type, size and time at `pos`, and the position after them. */
  function DecodeStat(data: seq<byte>, pos: nat): (r: Option<((FileType, FileSize, FileTime), nat)>)
    ensures r.Some? <==> pos + U32_BYTES + 2 * U64_BYTES <= |data|
    ensures r.Some? ==> r.value.1 == pos + U32_BYTES + 2 * U64_BYTES
  {
    match DecodeLE(data, pos, U32_BYTES)
    case None => None
    case Some((fileType, p1)) =>
      match DecodeLE(data, p1, U64_BYTES)
      case None => None
      case Some((size, p2)) =>
        match DecodeLE(data, p2, U64_BYTES)
        case None => None
        case Some((time, p3)) =>
          Pow256Widths();
          Some(((fileType as FileType, size as FileSize, time as FileTime), p3))
  }

  /** One target at `pos`; None when the data ends first. */
  function DecodeTarget(data: seq<byte>, pos: nat): Option<(TargetRecord, nat)> {
    match DecodeString(data, pos)
    case None => None
    case Some((path, p1)) =>
      match DecodeStat(data, p1)
      case None => None
      case Some((st, p2)) => Some((TargetRecord(path, st.0, st.1, st.2), p2))
  }

  /** The fixed-size start of the file: the magic and the number of targets; the count
      and the position after it. */
  function DecodeHeader2(data: seq<byte>): Option<(nat, nat)> {
    match DecodeLE(data, 0, U32_BYTES)
    case None => None
    case Some((magic, p0)) =>
      if magic != MAGIC2 then None
      else
        match DecodeLE(data, p0, SIZE_T_BYTES)
        case None => None
        case Some((count, p1)) => Some((count, p1))
  }

  /** What `readDB` loads: None when the file cannot be opened, the magic differs or the
      data ends early, in which case the snapshot is left as it was; otherwise each
      target `insert`ed under its path, in file order. */
  function DecodeDB2(db: Option<seq<byte>>): Option<map<PathString, DirectoryEntry>> {
    if db.None? then None
    else
      match DecodeHeader2(db.value)
      case None => None
      case Some((count, p1)) =>
        match DecodeList(DecodeTarget, db.value, p1, count)
        case None => None
        case Some((rs, _)) => Some(InsertAll(map[], Items(rs)))
  }

  /** How far the two reads of the header got decides what the header decodes to. */
  lemma {:induction false} HeaderRead2(data: seq<byte>, magic: nat, count: nat, ok1: bool, ok2: bool)
    requires magic == MAGIC2
    requires ok1 ==> DecodeLE(data, 0, U32_BYTES) == Some((magic, 4))
    requires !ok1 ==> DecodeLE(data, 0, U32_BYTES).None?
    requires ok2 ==> ok1 && DecodeLE(data, 4, SIZE_T_BYTES) == Some((count, 12))
    requires ok1 && !ok2 ==> DecodeLE(data, 4, SIZE_T_BYTES).None?
    ensures ok2 ==> DecodeHeader2(data) == Some((count, 12))
    ensures !ok2 ==> DecodeHeader2(data).None?
  {
  }

  lemma {:induction false} DecodeDB2Parts(data: seq<byte>, count: nat, p1: nat)
    requires DecodeHeader2(data) == Some((count, p1))
    ensures DecodeList(DecodeTarget, data, p1, count).None? ==> DecodeDB2(Some(data)).None?
    ensures DecodeList(DecodeTarget, data, p1, count).Some? ==>
              DecodeDB2(Some(data)) == Some(InsertAll(map[], Items(DecodeList(DecodeTarget, data, p1, count).value.0)))
  {
  }

  lemma {:induction false} DecodeStatAt(data: seq<byte>, pos: nat, r: TargetRecord)
    requires BytesAt(data, pos, EncodeStat(r))
    ensures DecodeStat(data, pos) == Some(((r.fileType, r.size, r.lastWriteTime), pos + |EncodeStat(r)|))
  {
    Pow256Widths();
    var a := LE(r.fileType as nat, U32_BYTES);
    var b := LE(r.size as nat, U64_BYTES);
    var c := LE(r.lastWriteTime as nat, U64_BYTES);
    BytesAtSplit(data, pos, a + b, c);
    BytesAtSplit(data, pos, a, b);
    DecodeLEAt(data, pos, r.fileType as nat, U32_BYTES);
    DecodeLEAt(data, pos + 4, r.size as nat, U64_BYTES);
    DecodeLEAt(data, pos + 12, r.lastWriteTime as nat, U64_BYTES);
  }

  /** A path short enough for its length to fit a `size_t`. */
  predicate RecordFits(r: TargetRecord) {
    |r.path| < U64_MODULUS
  }

  lemma {:induction false} DecodeTargetAt(data: seq<byte>, pos: nat, r: TargetRecord)
    requires RecordFits(r) && BytesAt(data, pos, EncodeTarget(r))
    ensures DecodeTarget(data, pos) == Some((r, pos + |EncodeTarget(r)|))
  {
    BytesAtSplit(data, pos, EncodeString(r.path), EncodeStat(r));
    DecodeStringAt(data, pos, r.path);
    DecodeStatAt(data, pos + |EncodeString(r.path)|, r);
  }

  /** Every target record written anywhere in `data` reads back. */
  lemma {:induction false} TargetsReadBack(data: seq<byte>)
    ensures ReadsBack(DecodeTarget, EncodeTarget, RecordFits, data)
  {
    forall r, p: nat | RecordFits(r) && BytesAt(data, p, EncodeTarget(r))
      ensures DecodeTarget(data, p).Some? && DecodeTarget(data, p).value.0 == r
      ensures DecodeTarget(data, p).value.1 == p + |EncodeTarget(r)|
    {
      DecodeTargetAt(data, p, r);
    }
  }

  /** The header of a written file reads back as the count. */
  lemma {:induction false} DB2HeaderRoundTrip(es: seq<DirectoryEntry>)
    requires |es| < U64_MODULUS
    ensures DecodeHeader2(EncodeDB2(es)) == Some((|es| as nat, 12))
    ensures BytesAt(EncodeDB2(es), 12, EncodeList(EncodeTarget, Records(es)))
  {
    Pow256Widths();
    var data := EncodeDB2(es);
    var n: nat := |es|;
    var a := LE(MAGIC2, U32_BYTES);
    var b := LE(n, SIZE_T_BYTES);
    var c := EncodeList(EncodeTarget, Records(es));
    BytesAtSlice(data, 0, a + b + c);
    BytesAtSplit(data, 0, a + b, c);
    BytesAtSplit(data, 0, a, b);
    DecodeLEAt(data, 0, MAGIC2, U32_BYTES);
    DecodeLEAt(data, 4, n, SIZE_T_BYTES);
  }

  /** Reading back what `writeDB` wrote gives each target `insert`ed under its path. */
  lemma {:induction false} DB2RoundTrip(es: seq<DirectoryEntry>)
    requires |es| < U64_MODULUS && AllOk(RecordFits, Records(es))
    ensures DecodeDB2(Some(EncodeDB2(es))) == Some(InsertAll(map[], Items(Records(es))))
  {
    var data := EncodeDB2(es);
    DB2HeaderRoundTrip(es);
    TargetsReadBack(data);
    DecodeListAt(DecodeTarget, EncodeTarget, RecordFits, data, 12, Records(es));
    DecodeDB2Parts(data, |es|, 12);
  }

  /** One iteration of `readDB`'s loop: a path, then the type, size and time; the stream
      fails when the data ends first. */
  method ReadTargetRecord(ist: InStream) returns (r: TargetRecord)
    requires ist.Valid() && !ist.fail
    modifies ist
    ensures ist.Valid()
    ensures !ist.fail <==> DecodeTarget(ist.data, old(ist.pos)).Some?
    ensures !ist.fail ==> DecodeTarget(ist.data, old(ist.pos)) == Some((r, ist.pos))
  {
    ghost var pos := ist.pos;
    Pow256Widths();
    var path := ReadStringBinary(ist);
    ghost var p1 := ist.pos;
    ghost var ok1 := !ist.fail;
    var fileType := ReadBinary(ist, U32_BYTES);
    var fileSize := ReadBinary(ist, U64_BYTES);
    var lastWriteTime := ReadBinary(ist, U64_BYTES);
    r := TargetRecord(path, fileType as FileType, fileSize as FileSize, lastWriteTime as FileTime);
    if DecodeString(ist.data, pos).Some? {
      assert DecodeString(ist.data, pos).value.1 == p1;
      if ok1 && !ist.fail {
        assert DecodeStat(ist.data, p1) == Some(((r.fileType, r.size, r.lastWriteTime), ist.pos));
      }
    }
  }

  /** The loop of `readDB`: `count` targets read one by one and `insert`ed; `ok` is false
      when the data ends first, and the map is then dropped. */
  method ReadTargetList(ist: InStream, count: nat) returns (targets: map<PathString, DirectoryEntry>, ok: bool)
    requires ist.Valid() && !ist.fail
    modifies ist
    ensures ist.Valid()
    ensures ok <==> DecodeList(DecodeTarget, ist.data, old(ist.pos), count).Some?
    ensures ok ==> targets == InsertAll(map[], Items(DecodeList(DecodeTarget, ist.data, old(ist.pos), count).value.0))
  {
    ghost var data := ist.data;
    ghost var start: nat := ist.pos;
    ghost var pos: nat := ist.pos;
    ghost var acc: seq<TargetRecord> := [];
    targets := map[];
    var i := 0;
    while i < count
      invariant ist.Valid() && !ist.fail && i <= count && ist.data == data && pos == ist.pos
      invariant DecodeList(DecodeTarget, data, start, i) == Some((acc, pos))
      invariant targets == InsertAll(map[], Items(acc))
    {
      var r := ReadTargetRecord(ist);
      if ist.fail {
        ListFails(DecodeTarget, data, start, i, acc, pos, count);
        return targets, false;
      }
      ListStep(DecodeTarget, data, start, i, acc, pos, r, ist.pos);
      InsertStep(Items(acc), targets, r.path, EntryOf(r));
      ItemsSnoc(acc, r);
      targets := Insert(targets, r.path, EntryOf(r));
      acc := acc + [r];
      pos := ist.pos;
      i := i + 1;
    }
    return targets, true;
  }

  /** One iteration of `writeDB`'s loop: after the header and the first `i` records,
      writing the path, type, size and time of record `i` appends that record. */
  lemma {:induction false} WriteTargetStep(header: seq<byte>, rs: seq<TargetRecord>, i: nat)
    requires i < |rs|
    ensures Pow256(U32_BYTES) == U32_MODULUS && Pow256(U64_BYTES) == U64_MODULUS
    ensures header + EncodeList(EncodeTarget, rs[..i]) + EncodeString(rs[i].path)
            + LE(rs[i].fileType as nat, U32_BYTES) + LE(rs[i].size as nat, U64_BYTES)
            + LE(rs[i].lastWriteTime as nat, U64_BYTES)
            == header + EncodeList(EncodeTarget, rs[..i + 1])
  {
    Pow256Widths();
    var r := rs[i];
    var x := header + EncodeList(EncodeTarget, rs[..i]);
    var a := LE(r.fileType as nat, U32_BYTES);
    var b := LE(r.size as nat, U64_BYTES);
    var c := LE(r.lastWriteTime as nat, U64_BYTES);
    assert x + EncodeString(r.path) + a + b + c == x + (EncodeString(r.path) + (a + b + c));
    assert EncodeTarget(r) == EncodeString(r.path) + (a + b + c);
    AppendAssoc(header, EncodeList(EncodeTarget, rs[..i]), EncodeTarget(r));
    EncodeListSnoc(EncodeTarget, rs, i);
  }

  // ---------------------------------------------------------------------------
  // The checker
  // ---------------------------------------------------------------------------

  class CheckingMethod2 {
    const cmdline: Options
    var changed: bool
    /** `targets_`: each in-scope entry, in the order it was met. */
    var targets: seq<DirectoryEntry>
    /** `targetsPrev_`: the snapshot's entries not met again yet. */
    var targetsPrev: map<PathString, DirectoryEntry>

    constructor (cmdline: Options)
      ensures this.cmdline == cmdline && !changed && targets == [] && targetsPrev == map[]
    {
      this.cmdline := cmdline;
      changed := false;
      targets := [];
      targetsPrev := map[];
    }

    /** `check`: scan the targets, then look for entries of the snapshot not met again. */
    method Check(fs: Filesystem) returns (r: bool)
      modifies this`targets, this`targetsPrev, this`changed
      ensures targets == old(targets) + ScannedTargets(cmdline, fs)
      ensures var d := Drain(Keyed(ScannedTargets(cmdline, fs)), DrainState(old(targetsPrev), old(changed)), SameStat);
              targetsPrev == d.prev && changed == (d.changed || d.prev != map[])
      ensures r == changed
      ensures !old(changed) ==> r == Changed(cmdline, fs, old(targetsPrev))
      ensures old(targets) == [] ==> targets == ScannedTargets(cmdline, fs)
    {
      CheckTargets(fs, cmdline.targets);
      if targetsPrev != map[] {
        changed := true;
      }
      r := changed;
    }

    /** The loop of `check` over the command-line targets. */
    method CheckTargets(fs: Filesystem, paths: seq<PathString>)
      modifies this`targets, this`targetsPrev, this`changed
      ensures targets == old(targets) + InScope(cmdline, WalkAll(cmdline, Roots(fs, paths)))
      ensures DrainState(targetsPrev, changed) ==
              Drain(Keyed(InScope(cmdline, WalkAll(cmdline, Roots(fs, paths)))), DrainState(old(targetsPrev), old(changed)), SameStat)
    {
      ghost var roots := Roots(fs, paths);
      ghost var s0 := DrainState(targetsPrev, changed);
      for i := 0 to |paths|
        invariant targets == old(targets) + InScope(cmdline, WalkAll(cmdline, roots[..i]))
        invariant DrainState(targetsPrev, changed) == Drain(Keyed(InScope(cmdline, WalkAll(cmdline, roots[..i]))), s0, SameStat)
      {
        ghost var tMid, sMid := targets, DrainState(targetsPrev, changed);
        assert roots[i] == fs(paths[i]);
        CheckPath(fs, paths[i]);
        TargetStep(cmdline, roots, i, old(targets), s0, tMid, sMid, targets, DrainState(targetsPrev, changed));
      }
      assert roots[..|paths|] == roots;
    }

    /** `checkPath`: the entry at a command-line path. */
    method CheckPath(fs: Filesystem, path: PathString)
      modifies this`targets, this`targetsPrev, this`changed
      ensures targets == old(targets) + InScope(cmdline, Walk(cmdline, fs(path)))
      ensures DrainState(targetsPrev, changed) ==
              Drain(Keyed(InScope(cmdline, Walk(cmdline, fs(path)))), DrainState(old(targetsPrev), old(changed)), SameStat)
    {
      CheckEntry(fs(path));
    }

    /** `checkEntry`: the entry itself when in scope, then, for a directory under `-r`,
        its enumeration. */
    method CheckEntry(n: Node)
      modifies this`targets, this`targetsPrev, this`changed
      ensures targets == old(targets) + InScope(cmdline, Walk(cmdline, n))
      ensures DrainState(targetsPrev, changed) ==
              Drain(Keyed(InScope(cmdline, Walk(cmdline, n))), DrainState(old(targetsPrev), old(changed)), SameStat)
      decreases n, 1
    {
      ghost var s0 := DrainState(targetsPrev, changed);
      if IsEntryTarget(cmdline, n.entry) {
        CheckTargetEntry(n.entry);
      }
      ghost var tMid, sMid := targets, DrainState(targetsPrev, changed);
      if n.entry.IsDirectory() && cmdline.includesSubEntriesInTarget {
        CheckDirectorySubEntries(n.children);
      }
      EntryStep(cmdline, n, old(targets), s0, tMid, sMid, targets, DrainState(targetsPrev, changed));
    }

    /** `checkDirectorySubEntries`: each entry of the enumeration, in order. */
    method CheckDirectorySubEntries(ns: seq<Node>)
      modifies this`targets, this`targetsPrev, this`changed
      ensures targets == old(targets) + InScope(cmdline, WalkAll(cmdline, ns))
      ensures DrainState(targetsPrev, changed) ==
              Drain(Keyed(InScope(cmdline, WalkAll(cmdline, ns))), DrainState(old(targetsPrev), old(changed)), SameStat)
      decreases ns, 0
    {
      ghost var s0 := DrainState(targetsPrev, changed);
      for i := 0 to |ns|
        invariant targets == old(targets) + InScope(cmdline, WalkAll(cmdline, ns[..i]))
        invariant DrainState(targetsPrev, changed) == Drain(Keyed(InScope(cmdline, WalkAll(cmdline, ns[..i]))), s0, SameStat)
      {
        ghost var tMid, sMid := targets, DrainState(targetsPrev, changed);
        CheckEntry(ns[i]);
        TargetStep(cmdline, ns, i, old(targets), s0, tMid, sMid, targets, DrainState(targetsPrev, changed));
      }
      assert ns[..|ns|] == ns;
    }

    /** `checkTargetEntry`: the entry is pushed, then looked up by its path: a missing path
        is a change; a present one is compared and erased. */
    method CheckTargetEntry(e: DirectoryEntry)
      modifies this`targets, this`targetsPrev, this`changed
      ensures targets == old(targets) + [e]
      ensures DrainState(targetsPrev, changed) == Drain(Keyed([e]), DrainState(old(targetsPrev), old(changed)), SameStat)
    {
      targets := targets + [e];
      var path := e.GetPath();
      if path !in targetsPrev {
        changed := true;
      } else {
        var before := targetsPrev[path];
        if e.fileType != before.fileType || e.lastWriteTime != before.lastWriteTime || e.size != before.size {
          changed := true;
        }
        targetsPrev := targetsPrev - {path};
      }
      assert Keyed([e]) == [(path, e)];
      DrainOne(path, e, DrainState(old(targetsPrev), old(changed)), SameStat);
    }

    /** `readDB`: the snapshot is swapped in only when the whole file was read. */
    method ReadDB(db: Option<seq<byte>>)
      modifies this`targetsPrev
      ensures DecodeDB2(db).None? ==> targetsPrev == old(targetsPrev)
      ensures DecodeDB2(db).Some? ==> targetsPrev == DecodeDB2(db).value
    {
      if db.None? {
        return;
      }
      var ist := new InStream(db.value);
      var magic := ReadBinary(ist, U32_BYTES);
      ghost var ok1 := !ist.fail;
      if magic != MAGIC2 {
        assert DecodeHeader2(ist.data).None?;
        return;
      }
      var targetCount := ReadBinary(ist, SIZE_T_BYTES);
      HeaderRead2(ist.data, magic, targetCount, ok1, !ist.fail);
      if ist.fail {
        return;
      }
      var loaded, ok := ReadTargetList(ist, targetCount);
      DecodeDB2Parts(ist.data, targetCount, 12);
      if !ok {
        return;
      }
      targetsPrev := loaded;
    }

    /** `writeDB`: None when the file cannot be opened for writing. */
    method WriteDB(canOpen: bool) returns (file: Option<seq<byte>>)
      ensures canOpen ==> file == Some(EncodeDB2(targets))
      ensures !canOpen ==> file.None?
    {
      if !canOpen {
        return None;
      }
      Pow256Widths();
      var os := new OutStream();
      WriteBinary(os, MAGIC2, U32_BYTES);
      WriteBinary(os, SizeT(|targets|) as nat, SIZE_T_BYTES);
      ghost var header := os.bytes;
      assert header == LE(MAGIC2, U32_BYTES) + LE(SizeT(|targets|) as nat, SIZE_T_BYTES) by {
        assert [] + LE(MAGIC2, U32_BYTES) == LE(MAGIC2, U32_BYTES);
      }
      ghost var rs := Records(targets);
      for i := 0 to |targets|
        invariant os.bytes == header + EncodeList(EncodeTarget, rs[..i])
      {
        var entry := targets[i];
        WriteStringBinary(os, entry.GetPath());
        WriteBinary(os, entry.fileType as nat, U32_BYTES);
        WriteBinary(os, entry.size as nat, U64_BYTES);
        WriteBinary(os, entry.lastWriteTime as nat, U64_BYTES);
        assert os.bytes == header + EncodeList(EncodeTarget, rs[..i + 1]) by {
          assert rs[i] == RecordOf(entry);
          WriteTargetStep(header, rs, i);
        }
      }
      assert rs[..|targets|] == rs;
      return Some(os.bytes);
    }
  }

  // ---------------------------------------------------------------------------
  // Properties of the verdict
  // ---------------------------------------------------------------------------

  /** The verdict spelt out: some in-scope entry is new, met twice or differs in type,
      size or time from the snapshot's, or some entry of the snapshot was not met. */
  lemma {:induction false} ChangedCases(o: Options, fs: Filesystem, prev: map<PathString, DirectoryEntry>)
    ensures var items := Keyed(ScannedTargets(o, fs));
            Changed(o, fs, prev) <==>
              (exists i :: 0 <= i < |items| && Flagged(items, i, prev, SameStat))
              || (exists k :: k in prev && k !in Keys(items))
  {
    var items := Keyed(ScannedTargets(o, fs));
    var s := DrainState(prev, false);
    DrainChanged(items, s, SameStat);
    DrainPrev(items, s, SameStat);
    var left := Drain(items, s, SameStat).prev;
    if exists k :: k in prev && k !in Keys(items) {
      var k :| k in prev && k !in Keys(items);
      assert k in left;
    }
  }

  /** Without a snapshot, the verdict is "changed" exactly when the scan meets some
      in-scope entry. */
  lemma {:induction false} FirstRun(o: Options, fs: Filesystem)
    ensures var es := WalkAll(o, Roots(fs, o.targets));
            Changed(o, fs, map[]) <==> exists i :: 0 <= i < |es| && IsEntryTarget(o, es[i])
  {
    var es := WalkAll(o, Roots(fs, o.targets));
    var items := Keyed(ScannedTargets(o, fs));
    InScopeMembers(o, es);
    DrainPrev(items, DrainState(map[], false), SameStat);
    if items != [] {
      DrainEmptySnapshot(items, SameStat);
      assert ScannedTargets(o, fs)[0] in ScannedTargets(o, fs);
    } else {
      DrainChanged(items, DrainState(map[], false), SameStat);
      forall i | 0 <= i < |es|
        ensures !IsEntryTarget(o, es[i])
      {
        assert es[i] in es;
      }
    }
  }

  /** Scanning again the entries a snapshot was written from, when no path repeats,
      erases the whole snapshot and flags nothing. */
  lemma {:induction false} DrainOwnTargets(es: seq<DirectoryEntry>)
    requires DistinctKeys(Keyed(es))
    ensures Drain(Keyed(es), DrainState(InsertAll(map[], Items(Records(es))), false), SameStat) == DrainState(map[], false)
  {
    var items := Keyed(es);
    var stored := Items(Records(es));
    assert SameKeys(items, stored);
    assert DistinctKeys(stored) by {
      assert forall i :: 0 <= i < |es| ==> stored[i].0 == items[i].0;
    }
    forall i | 0 <= i < |items|
      ensures SameStat(items[i].1, stored[i].1)
    {
      RebuiltEntrySame(es[i]);
    }
    DrainOwnSnapshot(items, stored, SameStat);
  }

  /** Running again on unchanged targets, with the snapshot the previous run wrote,
      reports no change, provided no path was met twice. */
  lemma {:induction false} SecondRunUnchanged(o: Options, fs: Filesystem)
    requires DistinctKeys(Keyed(ScannedTargets(o, fs)))
    requires |ScannedTargets(o, fs)| < U64_MODULUS && AllOk(RecordFits, Records(ScannedTargets(o, fs)))
    ensures var db := DecodeDB2(Some(EncodeDB2(ScannedTargets(o, fs))));
            db.Some? && !Changed(o, fs, db.value)
  {
    var es := ScannedTargets(o, fs);
    DB2RoundTrip(es);
    DrainOwnTargets(es);
  }

  /** A path met twice makes every run report a change. */
  lemma {:induction false} RepeatedPathAlwaysChanged(o: Options, fs: Filesystem, prev: map<PathString, DirectoryEntry>, i: nat, j: nat)
    requires i < j < |ScannedTargets(o, fs)| && ScannedTargets(o, fs)[i].GetPath() == ScannedTargets(o, fs)[j].GetPath()
    ensures Changed(o, fs, prev)
  {
    DrainRepeatedPath(Keyed(ScannedTargets(o, fs)), i, j, DrainState(prev, false), SameStat);
  }

  /** A path of the snapshot the scan no longer meets, i.e. a deleted or renamed entry,
      is a change. */
  lemma {:induction false} DeletedPathChanged(o: Options, fs: Filesystem, prev: map<PathString, DirectoryEntry>, k: PathString)
    requires k in prev && forall i :: 0 <= i < |ScannedTargets(o, fs)| ==> ScannedTargets(o, fs)[i].GetPath() != k
    ensures Changed(o, fs, prev)
  {
    var items := Keyed(ScannedTargets(o, fs));
    ChangedCases(o, fs, prev);
    assert k !in Keys(items);
  }
}
