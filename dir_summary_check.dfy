/** Checking method 1 ("dirsummary"): for every directory the scan descends into, the number,
    total size and latest last-write time of its in-scope children; the command-line
    targets count as the children of one extra, top-level directory. The targets have
    changed when a summary differs from the snapshot's, a directory is new, or a directory
    of the snapshot was not met again. */
module DirSummaryCheck {
  import opened Basics
  import opened PathStrings
  import opened Entries
  import opened CommandLines
  import opened Checking
  import opened Drains
  import opened BinaryIO
  import opened RecordLists

  /** The totals kept for one directory. The count is an `unsigned int` and the size a
      64-bit unsigned integer; both wrap around. */
  datatype DirSummary = DirSummary(totalFileCount: u32, totalFileSize: FileSize, latestFileTime: FileTime)

  const EmptySummary: DirSummary := DirSummary(0, 0, 0)

  /** `DirSummary::operator==`: all three fields agree. */
  predicate SameSummary(a: DirSummary, b: DirSummary) {
    a == b
  }

  /** `DirSummary::add`: one more entry, its size added, and the latest time kept. */
  function Add(s: DirSummary, e: DirectoryEntry): (r: DirSummary)
    ensures r.totalFileCount as int == (s.totalFileCount as int + 1) % U32_MODULUS
    ensures r.totalFileSize as int == (s.totalFileSize as int + e.size as int) % U64_MODULUS
    ensures r.latestFileTime >= s.latestFileTime && r.latestFileTime >= e.lastWriteTime
    ensures r.latestFileTime == s.latestFileTime || r.latestFileTime == e.lastWriteTime
    ensures r != s
  {
    DirSummary(
      ((s.totalFileCount as int + 1) % U32_MODULUS) as u32,
      ((s.totalFileSize as int + e.size as int) % U64_MODULUS) as FileSize,
      if e.lastWriteTime > s.latestFileTime then e.lastWriteTime else s.latestFileTime)
  }

  /** `s` after `add`ing each in-scope entry of `es` in turn. */
  function AddInScope(o: Options, s: DirSummary, es: seq<DirectoryEntry>): DirSummary
    decreases |es|
  {
    if es == [] then s
    else
      var r := AddInScope(o, s, es[..|es| - 1]);
      if IsEntryTarget(o, es[|es| - 1]) then Add(r, es[|es| - 1]) else r
  }

  /** The summary of an enumeration: its in-scope entries added to an empty summary. */
  function Summarize(o: Options, ns: seq<Node>): DirSummary {
    AddInScope(o, EmptySummary, EntriesOf(ns))
  }

  // ---------------------------------------------------------------------------
  // Reference definitions of the three totals
  // ---------------------------------------------------------------------------

  /** The sum of the sizes of `es`, without wrap-around. */
  function SumSizes(es: seq<DirectoryEntry>): nat {
    if es == [] then 0 else SumSizes(es[..|es| - 1]) + es[|es| - 1].size as nat
  }

  /** The latest last-write time in `es`, 0 for none. */
  function MaxTime(es: seq<DirectoryEntry>): FileTime {
    if es == [] then 0
    else
      var t := MaxTime(es[..|es| - 1]);
      if es[|es| - 1].lastWriteTime > t then es[|es| - 1].lastWriteTime else t
  }

  lemma {:induction false} ModStep32(a: int, b: int)
    ensures (a % U32_MODULUS + b) % U32_MODULUS == (a + b) % U32_MODULUS
  {
    assert a == (a / U32_MODULUS) * U32_MODULUS + a % U32_MODULUS;
  }

  lemma {:induction false} ModStep64(a: int, b: int)
    ensures (a % U64_MODULUS + b) % U64_MODULUS == (a + b) % U64_MODULUS
  {
    assert a == (a / U64_MODULUS) * U64_MODULUS + a % U64_MODULUS;
  }

  /** The count is the number of in-scope entries added, modulo 2^32. */
  lemma {:induction false} AddInScopeCount(o: Options, s: DirSummary, es: seq<DirectoryEntry>)
    ensures AddInScope(o, s, es).totalFileCount as int == (s.totalFileCount as int + |InScope(o, es)|) % U32_MODULUS
    decreases |es|
  {
    if es != [] {
      var init := es[..|es| - 1];
      AddInScopeCount(o, s, init);
      if IsEntryTarget(o, es[|es| - 1]) {
        assert |InScope(o, es)| == |InScope(o, init)| + 1;
        ModStep32(s.totalFileCount as int + |InScope(o, init)|, 1);
      }
    }
  }

  /** The size is the sum of the in-scope entries' sizes, modulo 2^64. */
  lemma {:induction false} AddInScopeSize(o: Options, s: DirSummary, es: seq<DirectoryEntry>)
    ensures AddInScope(o, s, es).totalFileSize as int == (s.totalFileSize as int + SumSizes(InScope(o, es))) % U64_MODULUS
    decreases |es|
  {
    if es != [] {
      var init := es[..|es| - 1];
      AddInScopeSize(o, s, init);
      if IsEntryTarget(o, es[|es| - 1]) {
        AddInScopeSizeStep(o, s, es);
      }
    }
  }

  /** One in-scope entry more adds its size, modulo 2^64. */
  lemma {:induction false} AddInScopeSizeStep(o: Options, s: DirSummary, es: seq<DirectoryEntry>)
    requires es != [] && IsEntryTarget(o, es[|es| - 1])
    requires var init := es[..|es| - 1];
             AddInScope(o, s, init).totalFileSize as int == (s.totalFileSize as int + SumSizes(InScope(o, init))) % U64_MODULUS
    ensures AddInScope(o, s, es).totalFileSize as int == (s.totalFileSize as int + SumSizes(InScope(o, es))) % U64_MODULUS
  {
    var init := es[..|es| - 1];
    var last := es[|es| - 1];
    var ti := InScope(o, init);
    var a := s.totalFileSize as int + SumSizes(ti);
    var b := last.size as int;
    assert InScope(o, es) == ti + [last];
    SumSizesSnoc(ti, last);
    assert AddInScope(o, s, es) == Add(AddInScope(o, s, init), last);
    ModStep64(a, b);
  }

  lemma {:induction false} SumSizesSnoc(es: seq<DirectoryEntry>, e: DirectoryEntry)
    ensures SumSizes(es + [e]) == SumSizes(es) + e.size as nat
  {
    assert (es + [e])[..|es|] == es;
  }

  /** The time is the latest of the starting one and the in-scope entries' times. */
  lemma {:induction false} AddInScopeLatest(o: Options, s: DirSummary, es: seq<DirectoryEntry>)
    ensures var t := MaxTime(InScope(o, es));
            AddInScope(o, s, es).latestFileTime == if t > s.latestFileTime then t else s.latestFileTime
    decreases |es|
  {
    if es != [] {
      var init := es[..|es| - 1];
      var last := es[|es| - 1];
      AddInScopeLatest(o, s, init);
      var ti := InScope(o, init);
      if IsEntryTarget(o, last) {
        var t := ti + [last];
        assert t[..|t| - 1] == ti;
      }
    }
  }

  /** With nothing in scope, a summary is left as it was. */
  lemma {:induction false} NothingInScopeKeepsSummary(o: Options, s: DirSummary, es: seq<DirectoryEntry>)
    requires forall i :: 0 <= i < |es| ==> !IsEntryTarget(o, es[i])
    ensures AddInScope(o, s, es) == s
    decreases |es|
  {
    if es != [] {
      NothingInScopeKeepsSummary(o, s, es[..|es| - 1]);
    }
  }

  /** Two enumerations whose entries agree on being in scope, size and last-write time have
      the same summary: names, and which entry is which, are not looked at. */
  lemma {:induction false} SummaryDependsOnlyOnStats(o: Options, s: DirSummary, a: seq<DirectoryEntry>, b: seq<DirectoryEntry>)
    requires |a| == |b|
    requires forall i :: 0 <= i < |a| ==> (IsEntryTarget(o, a[i]) <==> IsEntryTarget(o, b[i]))
    requires forall i :: 0 <= i < |a| ==> a[i].size == b[i].size && a[i].lastWriteTime == b[i].lastWriteTime
    ensures AddInScope(o, s, a) == AddInScope(o, s, b)
    decreases |a|
  {
    if a != [] {
      SummaryDependsOnlyOnStats(o, s, a[..|a| - 1], b[..|b| - 1]);
    }
  }

  /** Renaming an in-scope regular file to another in-scope name goes unnoticed by the
      summary of its directory. */
  lemma {:induction false} RenameUndetected(o: Options, es: seq<DirectoryEntry>, i: nat, name: PathString)
    requires i < |es| && es[i].IsRegularFile()
    requires MatchesExtensions(o.targetExtensions, es[i].filename)
    requires MatchesExtensions(o.targetExtensions, name)
    ensures AddInScope(o, EmptySummary, es[i := es[i].(filename := name)]) == AddInScope(o, EmptySummary, es)
  {
    var renamed := es[i := es[i].(filename := name)];
    assert IsEntryTarget(o, renamed[i]) && IsEntryTarget(o, es[i]);
    SummaryDependsOnlyOnStats(o, EmptySummary, renamed, es);
  }

  // ---------------------------------------------------------------------------
  // What a scan produces
  // ---------------------------------------------------------------------------

  /** The `(path, summary)` pairs pushed while scanning from `n`: those of the directories
      below it first, then its own when the scan descends into it. */
  function Descended(o: Options, n: Node): seq<(PathString, DirSummary)>
    decreases n, 1
  {
    if Descends(o, n.entry) then DescendedAll(o, n.children) + [(n.entry.GetPath(), Summarize(o, n.children))]
    else []
  }

  /** The pairs pushed while scanning each of `ns` in turn. */
  function DescendedAll(o: Options, ns: seq<Node>): seq<(PathString, DirSummary)>
    decreases ns, 0
  {
    if ns == [] then [] else DescendedAll(o, ns[..|ns| - 1]) + Descended(o, ns[|ns| - 1])
  }

  /** The directory list of a scan of the targets. */
  function ScanDirs(o: Options, fs: Filesystem): seq<(PathString, DirSummary)> {
    DescendedAll(o, Roots(fs, o.targets))
  }

  /** The top-level summary of a scan of the targets. */
  function TopLevel(o: Options, fs: Filesystem): DirSummary {
    Summarize(o, Roots(fs, o.targets))
  }

  /** The verdict of a scan against a snapshot (`topPrev`, `prev`). */
  predicate Changed(o: Options, fs: Filesystem, topPrev: DirSummary, prev: map<PathString, DirSummary>) {
    var d := Drain(ScanDirs(o, fs), DrainState(prev, false), SameSummary);
    d.changed || TopLevel(o, fs) != topPrev || d.prev != map[]
  }

  /** One scanned node more: the pairs pushed and the drained snapshot both extend by that
      node's. */
  lemma {:induction false} DescendStep(o: Options, ns: seq<Node>, i: int,
                    d0: seq<(PathString, DirSummary)>, s0: DrainState<DirSummary>,
                    dMid: seq<(PathString, DirSummary)>, sMid: DrainState<DirSummary>,
                    d1: seq<(PathString, DirSummary)>, s1: DrainState<DirSummary>)
    requires 0 <= i < |ns|
    requires dMid == d0 + DescendedAll(o, ns[..i]) && sMid == Drain(DescendedAll(o, ns[..i]), s0, SameSummary)
    requires d1 == dMid + Descended(o, ns[i]) && s1 == Drain(Descended(o, ns[i]), sMid, SameSummary)
    ensures d1 == d0 + DescendedAll(o, ns[..i + 1])
    ensures s1 == Drain(DescendedAll(o, ns[..i + 1]), s0, SameSummary)
  {
    assert ns[..i + 1][..i] == ns[..i];
    DrainConcat(DescendedAll(o, ns[..i]), Descended(o, ns[i]), s0, SameSummary);
  }

  /** One scanned node more: the summary adds its entry when in scope. */
  lemma {:induction false} SummaryStep(o: Options, ns: seq<Node>, i: int, t0: DirSummary, tMid: DirSummary, t1: DirSummary)
    requires 0 <= i < |ns|
    requires tMid == AddInScope(o, t0, EntriesOf(ns[..i]))
    requires t1 == if IsEntryTarget(o, ns[i].entry) then Add(tMid, ns[i].entry) else tMid
    ensures t1 == AddInScope(o, t0, EntriesOf(ns[..i + 1]))
  {
    EntriesOfSnoc(ns, i);
    var es := EntriesOf(ns[..i + 1]);
    assert es[..|es| - 1] == EntriesOf(ns[..i]);
  }

  // ---------------------------------------------------------------------------
  // The snapshot file
  // ---------------------------------------------------------------------------

  /** `DB_MAGIC`: the bytes "dfc1" read as a little-endian `unsigned int`. */
  const MAGIC1: nat := 0x3163_6664

  lemma {:induction false} Magic1Bytes()
    ensures MAGIC1 < Pow256(U32_BYTES)
    ensures LE(MAGIC1, U32_BYTES) == [0x64, 0x66, 0x63, 0x31]
  {
  }

  /** `writeDirSummary`: count, size, time. */
  function EncodeSummary(s: DirSummary): (bs: seq<byte>)
    ensures |bs| == U32_BYTES + 2 * U64_BYTES
  {
    Pow256Widths();
    LE(s.totalFileCount as nat, U32_BYTES) + LE(s.totalFileSize as nat, U64_BYTES) + LE(s.latestFileTime as nat, U64_BYTES)
  }

  /** One directory of the list: its path, then its summary. */
  function EncodeRecord(r: (PathString, DirSummary)): (bs: seq<byte>)
    ensures |bs| == SIZE_T_BYTES + |r.0| + U32_BYTES + 2 * U64_BYTES
  {
    EncodeString(r.0) + EncodeSummary(r.1)
  }

  /** What `writeDB` writes: the magic, the top-level summary, the number of directories
      and each directory in list order. */
  function EncodeDB1(top: DirSummary, d: seq<(PathString, DirSummary)>): seq<byte> {
    Pow256Widths();
    LE(MAGIC1, U32_BYTES) + EncodeSummary(top) + LE(SizeT(|d|) as nat, SIZE_T_BYTES) + EncodeList(EncodeRecord, d)
  }

  /** A summary at `pos`, and the position after it. */
  function DecodeSummary(data: seq<byte>, pos: nat): (r: Option<(DirSummary, nat)>)
    ensures r.Some? <==> pos + U32_BYTES + 2 * U64_BYTES <= |data|
    ensures r.Some? ==> r.value.1 == pos + U32_BYTES + 2 * U64_BYTES
  {
    match DecodeLE(data, pos, U32_BYTES)
    case None => None
    case Some((count, p1)) =>
      match DecodeLE(data, p1, U64_BYTES)
      case None => None
      case Some((size, p2)) =>
        match DecodeLE(data, p2, U64_BYTES)
        case None => None
        case Some((time, p3)) =>
          Pow256Widths();
          Some((DirSummary(count as u32, size as FileSize, time as FileTime), p3))
  }

  /** One directory at `pos`: its path, then its summary; None when the data ends first. */
  function DecodeRecord(data: seq<byte>, pos: nat): Option<((PathString, DirSummary), nat)> {
    match DecodeString(data, pos)
    case None => None
    case Some((name, p1)) =>
      match DecodeSummary(data, p1)
      case None => None
      case Some((s, p2)) => Some(((name, s), p2))
  }

  /** The fixed-size start of the file: the magic, the top-level summary and the number
      of directories; the summary, the count and the position after them. */
  function DecodeHeader1(data: seq<byte>): Option<(DirSummary, nat, nat)> {
    match DecodeLE(data, 0, U32_BYTES)
    case None => None
    case Some((magic, p0)) =>
      if magic != MAGIC1 then None
      else
        match DecodeSummary(data, p0)
        case None => None
        case Some((top, p1)) =>
          match DecodeLE(data, p1, SIZE_T_BYTES)
          case None => None
          case Some((count, p2)) => Some((top, count, p2))
  }

  /** What `readDB` loads: None when the file cannot be opened, the magic differs or the
      data ends early, in which case the snapshot is left as it was; otherwise the
      top-level summary and the directories `insert`ed in file order. */
  function DecodeDB1(db: Option<seq<byte>>): Option<(DirSummary, map<PathString, DirSummary>)> {
    if db.None? then None
    else
      match DecodeHeader1(db.value)
      case None => None
      case Some((top, count, p2)) =>
        match DecodeList(DecodeRecord, db.value, p2, count)
        case None => None
        case Some((items, _)) => Some((top, InsertAll(map[], items)))
  }

  lemma {:induction false} DecodeHeader1Parts(data: seq<byte>, top: DirSummary, n: nat)
    requires DecodeLE(data, 0, U32_BYTES) == Some((MAGIC1, 4))
    requires DecodeSummary(data, 4) == Some((top, 24))
    requires DecodeLE(data, 24, SIZE_T_BYTES) == Some((n, 32))
    ensures DecodeHeader1(data) == Some((top, n, 32))
  {
  }

  /** How far the three reads of the header got decides what the header decodes to. */
  lemma {:induction false} HeaderRead(data: seq<byte>, magic: nat, top: DirSummary, count: nat, ok1: bool, ok2: bool, ok3: bool)
    requires magic == MAGIC1
    requires ok1 ==> DecodeLE(data, 0, U32_BYTES) == Some((magic, 4))
    requires !ok1 ==> DecodeLE(data, 0, U32_BYTES).None?
    requires ok2 ==> ok1 && DecodeSummary(data, 4) == Some((top, 24))
    requires ok1 && !ok2 ==> DecodeSummary(data, 4).None?
    requires ok3 ==> ok2 && DecodeLE(data, 24, SIZE_T_BYTES) == Some((count, 32))
    requires ok2 && !ok3 ==> DecodeLE(data, 24, SIZE_T_BYTES).None?
    ensures ok3 ==> DecodeHeader1(data) == Some((top, count, 32))
    ensures !ok3 ==> DecodeHeader1(data).None?
  {
  }

  lemma {:induction false} DecodeDB1Parts(data: seq<byte>, top: DirSummary, count: nat, p2: nat)
    requires DecodeHeader1(data) == Some((top, count, p2))
    ensures DecodeList(DecodeRecord, data, p2, count).None? ==> DecodeDB1(Some(data)).None?
    ensures DecodeList(DecodeRecord, data, p2, count).Some? ==>
              DecodeDB1(Some(data)) == Some((top, InsertAll(map[], DecodeList(DecodeRecord, data, p2, count).value.0)))
  {
  }

  lemma {:induction false} DecodeSummaryAt(data: seq<byte>, pos: nat, s: DirSummary)
    requires BytesAt(data, pos, EncodeSummary(s))
    ensures DecodeSummary(data, pos) == Some((s, pos + |EncodeSummary(s)|))
  {
    Pow256Widths();
    var a := LE(s.totalFileCount as nat, U32_BYTES);
    var b := LE(s.totalFileSize as nat, U64_BYTES);
    var c := LE(s.latestFileTime as nat, U64_BYTES);
    BytesAtSplit(data, pos, a + b, c);
    BytesAtSplit(data, pos, a, b);
    DecodeLEAt(data, pos, s.totalFileCount as nat, U32_BYTES);
    DecodeLEAt(data, pos + 4, s.totalFileSize as nat, U64_BYTES);
    DecodeLEAt(data, pos + 12, s.latestFileTime as nat, U64_BYTES);
  }

  /** A path short enough for its length to fit a `size_t`. */
  predicate PathFits(x: (PathString, DirSummary)) {
    |x.0| < U64_MODULUS
  }

  lemma {:induction false} DecodeRecordAt(data: seq<byte>, pos: nat, x: (PathString, DirSummary))
    requires |x.0| < U64_MODULUS && BytesAt(data, pos, EncodeRecord(x))
    ensures DecodeRecord(data, pos) == Some((x, pos + 28 + |x.0|))
  {
    BytesAtSplit(data, pos, EncodeString(x.0), EncodeSummary(x.1));
    DecodeStringAt(data, pos, x.0);
    DecodeSummaryAt(data, pos + |EncodeString(x.0)|, x.1);
  }

  /** Every directory record written anywhere in `data` reads back. */
  lemma {:induction false} RecordsReadBack(data: seq<byte>)
    ensures ReadsBack(DecodeRecord, EncodeRecord, PathFits, data)
  {
    forall x, p: nat | PathFits(x) && BytesAt(data, p, EncodeRecord(x))
      ensures DecodeRecord(data, p).Some? && DecodeRecord(data, p).value.0 == x
      ensures DecodeRecord(data, p).value.1 == p + |EncodeRecord(x)|
    {
      DecodeRecordAt(data, p, x);
    }
  }

  /** The header of a written file reads back as the top-level summary and the count. */
  lemma {:induction false} DB1HeaderRoundTrip(top: DirSummary, d: seq<(PathString, DirSummary)>)
    requires |d| < U64_MODULUS
    ensures DecodeHeader1(EncodeDB1(top, d)) == Some((top, |d| as nat, 32))
    ensures BytesAt(EncodeDB1(top, d), 32, EncodeList(EncodeRecord, d))
  {
    Pow256Widths();
    var data := EncodeDB1(top, d);
    var n: nat := |d|;
    BytesAtFour(data, LE(MAGIC1, U32_BYTES), EncodeSummary(top), LE(n, SIZE_T_BYTES), EncodeList(EncodeRecord, d));
    DecodeLEAt(data, 0, MAGIC1, U32_BYTES);
    DecodeSummaryAt(data, 4, top);
    DecodeLEAt(data, 24, n, SIZE_T_BYTES);
    DecodeHeader1Parts(data, top, n);
  }

  /** Reading back what `writeDB` wrote gives the top-level summary and the directory list,
      `insert`ed into a map. */
  lemma {:induction false} DB1RoundTrip(top: DirSummary, d: seq<(PathString, DirSummary)>)
    requires |d| < U64_MODULUS && AllOk(PathFits, d)
    ensures DecodeDB1(Some(EncodeDB1(top, d))) == Some((top, InsertAll(map[], d)))
  {
    var data := EncodeDB1(top, d);
    DB1HeaderRoundTrip(top, d);
    RecordsReadBack(data);
    DecodeListAt(DecodeRecord, EncodeRecord, PathFits, data, 32, d);
    DecodeDB1Parts(data, top, |d|, 32);
  }

  /** `readDirSummary`. */
  method ReadDirSummary(ist: InStream) returns (s: DirSummary)
    requires ist.Valid()
    modifies ist
    ensures ist.Valid()
    ensures old(ist.fail) ==> ist.fail && s == EmptySummary
    ensures !old(ist.fail) && DecodeSummary(ist.data, old(ist.pos)).Some? ==>
              !ist.fail && DecodeSummary(ist.data, old(ist.pos)) == Some((s, ist.pos))
    ensures !old(ist.fail) && DecodeSummary(ist.data, old(ist.pos)).None? ==> ist.fail && s == EmptySummary
  {
    Pow256Widths();
    var count := ReadBinary(ist, U32_BYTES);
    var size := ReadBinary(ist, U64_BYTES);
    var time := ReadBinary(ist, U64_BYTES);
    if ist.fail {
      return EmptySummary;
    }
    s := DirSummary(count as u32, size as FileSize, time as FileTime);
  }

  lemma {:induction false} AppendThree(x: seq<byte>, a: seq<byte>, b: seq<byte>, c: seq<byte>)
    ensures x + a + b + c == x + (a + b + c)
  {
  }

  lemma {:induction false} AppendTwo(x: seq<byte>, y: seq<byte>, a: seq<byte>, b: seq<byte>)
    ensures x + y + a + b == x + (y + (a + b))
  {
  }

  /** `writeDirSummary`. */
  method WriteDirSummary(os: OutStream, s: DirSummary)
    modifies os
    ensures os.bytes == old(os.bytes) + EncodeSummary(s)
  {
    Pow256Widths();
    var a := LE(s.totalFileCount as nat, U32_BYTES);
    var b := LE(s.totalFileSize as nat, U64_BYTES);
    var c := LE(s.latestFileTime as nat, U64_BYTES);
    WriteBinary(os, s.totalFileCount as nat, U32_BYTES);
    WriteBinary(os, s.totalFileSize as nat, U64_BYTES);
    WriteBinary(os, s.latestFileTime as nat, U64_BYTES);
    AppendThree(old(os.bytes), a, b, c);
  }

  /** One iteration of `readDB`'s loop: a directory's path, then its summary. */
  method ReadDirectoryRecord(ist: InStream) returns (x: (PathString, DirSummary))
    requires ist.Valid() && !ist.fail
    modifies ist
    ensures ist.Valid()
    ensures !ist.fail <==> DecodeRecord(ist.data, old(ist.pos)).Some?
    ensures !ist.fail ==> DecodeRecord(ist.data, old(ist.pos)) == Some((x, ist.pos))
  {
    ghost var pos := ist.pos;
    var dirName := ReadStringBinary(ist);
    ghost var p1 := ist.pos;
    var dirSummary := ReadDirSummary(ist);
    x := (dirName, dirSummary);
    if DecodeString(ist.data, pos).Some? {
      assert DecodeString(ist.data, pos).value.1 == p1;
    }
  }

  /** The loop of `readDB`: `count` directories read one by one and `insert`ed; `ok` is
      false when the data ends first, and the map is then dropped. */
  method ReadDirectoryList(ist: InStream, count: nat) returns (dirs: map<PathString, DirSummary>, ok: bool)
    requires ist.Valid() && !ist.fail
    modifies ist
    ensures ist.Valid()
    ensures ok <==> DecodeList(DecodeRecord, ist.data, old(ist.pos), count).Some?
    ensures ok ==> dirs == InsertAll(map[], DecodeList(DecodeRecord, ist.data, old(ist.pos), count).value.0)
  {
    ghost var data := ist.data;
    ghost var start: nat := ist.pos;
    ghost var pos: nat := ist.pos;
    ghost var acc: seq<(PathString, DirSummary)> := [];
    dirs := map[];
    var i := 0;
    while i < count
      invariant ist.Valid() && !ist.fail && i <= count && ist.data == data && pos == ist.pos
      invariant DecodeList(DecodeRecord, data, start, i) == Some((acc, pos))
      invariant dirs == InsertAll(map[], acc)
    {
      var x := ReadDirectoryRecord(ist);
      if ist.fail {
        ListFails(DecodeRecord, data, start, i, acc, pos, count);
        return dirs, false;
      }
      ListStep(DecodeRecord, data, start, i, acc, pos, x, ist.pos);
      InsertStep(acc, dirs, x.0, x.1);
      dirs := Insert(dirs, x.0, x.1);
      acc := acc + [x];
      pos := ist.pos;
      i := i + 1;
    }
    return dirs, true;
  }

  // ---------------------------------------------------------------------------
  // The checker
  // ---------------------------------------------------------------------------

  class CheckingMethod1 {
    const cmdline: Options
    var changed: bool
    /** `dirs_`: each descended directory with its summary, in the order they were closed. */
    var dirs: seq<(PathString, DirSummary)>
    /** `dirsPrev_`: the snapshot's directories not met again yet. */
    var dirsPrev: map<PathString, DirSummary>
    var topLevel: DirSummary
    var topLevelPrev: DirSummary

    constructor (cmdline: Options)
      ensures this.cmdline == cmdline && !changed
      ensures dirs == [] && dirsPrev == map[] && topLevel == EmptySummary && topLevelPrev == EmptySummary
    {
      this.cmdline := cmdline;
      changed := false;
      dirs := [];
      dirsPrev := map[];
      topLevel := EmptySummary;
      topLevelPrev := EmptySummary;
    }

    /** `check`: scan the targets, then compare the top-level summary and look for
        directories not met again. */
    method Check(fs: Filesystem) returns (r: bool)
      modifies this`topLevel, this`dirs, this`dirsPrev, this`changed
      ensures topLevel == AddInScope(cmdline, old(topLevel), EntriesOf(Roots(fs, cmdline.targets)))
      ensures dirs == old(dirs) + ScanDirs(cmdline, fs)
      ensures var d := Drain(ScanDirs(cmdline, fs), DrainState(old(dirsPrev), old(changed)), SameSummary);
              dirsPrev == d.prev && changed == (d.changed || topLevel != topLevelPrev || d.prev != map[])
      ensures r == changed
      ensures !old(changed) && old(topLevel) == EmptySummary ==> r == Changed(cmdline, fs, topLevelPrev, old(dirsPrev))
      ensures old(topLevel) == EmptySummary ==> topLevel == TopLevel(cmdline, fs)
      ensures old(dirs) == [] ==> dirs == ScanDirs(cmdline, fs)
    {
      CheckTargets(fs, cmdline.targets);
      if topLevel != topLevelPrev {
        changed := true;
      }
      if dirsPrev != map[] {
        changed := true;
      }
      r := changed;
    }

    /** The loop of `check` over the command-line targets. */
    method CheckTargets(fs: Filesystem, targets: seq<PathString>)
      modifies this`topLevel, this`dirs, this`dirsPrev, this`changed
      ensures topLevel == AddInScope(cmdline, old(topLevel), EntriesOf(Roots(fs, targets)))
      ensures dirs == old(dirs) + DescendedAll(cmdline, Roots(fs, targets))
      ensures DrainState(dirsPrev, changed) ==
              Drain(DescendedAll(cmdline, Roots(fs, targets)), DrainState(old(dirsPrev), old(changed)), SameSummary)
    {
      ghost var roots := Roots(fs, targets);
      ghost var s0 := DrainState(dirsPrev, changed);
      for i := 0 to |targets|
        invariant topLevel == AddInScope(cmdline, old(topLevel), EntriesOf(roots[..i]))
        invariant dirs == old(dirs) + DescendedAll(cmdline, roots[..i])
        invariant DrainState(dirsPrev, changed) == Drain(DescendedAll(cmdline, roots[..i]), s0, SameSummary)
      {
        ghost var tMid, dMid, sMid := topLevel, dirs, DrainState(dirsPrev, changed);
        assert roots[i] == fs(targets[i]);
        CheckTopLevelEntry(fs(targets[i]));
        SummaryStep(cmdline, roots, i, old(topLevel), tMid, topLevel);
        DescendStep(cmdline, roots, i, old(dirs), s0, dMid, sMid, dirs, DrainState(dirsPrev, changed));
      }
      assert roots[..|targets|] == roots;
    }

    /** `checkTopLevelEntry`: a target in scope counts in the top-level summary. */
    method CheckTopLevelEntry(n: Node)
      modifies this`topLevel, this`dirs, this`dirsPrev, this`changed
      ensures topLevel == if IsEntryTarget(cmdline, n.entry) then Add(old(topLevel), n.entry) else old(topLevel)
      ensures dirs == old(dirs) + Descended(cmdline, n)
      ensures DrainState(dirsPrev, changed) == Drain(Descended(cmdline, n), DrainState(old(dirsPrev), old(changed)), SameSummary)
    {
      if IsEntryTarget(cmdline, n.entry) {
        topLevel := Add(topLevel, n.entry);
      }
      CheckEntry(n);
    }

    /** `checkEntry`: a directory is scanned below only under `-r`. */
    method CheckEntry(n: Node)
      modifies this`dirs, this`dirsPrev, this`changed
      ensures dirs == old(dirs) + Descended(cmdline, n)
      ensures DrainState(dirsPrev, changed) == Drain(Descended(cmdline, n), DrainState(old(dirsPrev), old(changed)), SameSummary)
      decreases n, 1
    {
      if n.entry.IsDirectory() && cmdline.includesSubEntriesInTarget {
        CheckDirectorySubEntries(n.entry.GetPath(), n.children);
      } else {
        assert dirs == old(dirs) + [];
      }
    }

    /** `checkDirectorySubEntries`: each child is scanned, then counted when in scope; the
        directory's summary is pushed and compared with the snapshot's, whose entry is
        erased. */
    method CheckDirectorySubEntries(dir: PathString, ns: seq<Node>)
      modifies this`dirs, this`dirsPrev, this`changed
      ensures dirs == old(dirs) + (DescendedAll(cmdline, ns) + [(dir, Summarize(cmdline, ns))])
      ensures DrainState(dirsPrev, changed) ==
              Drain(DescendedAll(cmdline, ns) + [(dir, Summarize(cmdline, ns))], DrainState(old(dirsPrev), old(changed)), SameSummary)
      decreases ns, 0
    {
      ghost var s0 := DrainState(dirsPrev, changed);
      var dirSummary := EmptySummary;
      for i := 0 to |ns|
        invariant dirSummary == AddInScope(cmdline, EmptySummary, EntriesOf(ns[..i]))
        invariant dirs == old(dirs) + DescendedAll(cmdline, ns[..i])
        invariant DrainState(dirsPrev, changed) == Drain(DescendedAll(cmdline, ns[..i]), s0, SameSummary)
      {
        ghost var tMid, dMid, sMid := dirSummary, dirs, DrainState(dirsPrev, changed);
        CheckEntry(ns[i]);
        if IsEntryTarget(cmdline, ns[i].entry) {
          dirSummary := Add(dirSummary, ns[i].entry);
        }
        SummaryStep(cmdline, ns, i, EmptySummary, tMid, dirSummary);
        DescendStep(cmdline, ns, i, old(dirs), s0, dMid, sMid, dirs, DrainState(dirsPrev, changed));
      }
      assert ns[..|ns|] == ns;
      ghost var sLoop := DrainState(dirsPrev, changed);
      dirs := dirs + [(dir, dirSummary)];
      if dir !in dirsPrev {
        changed := true;
      } else {
        if dirsPrev[dir] != dirSummary {
          changed := true;
        }
        dirsPrev := dirsPrev - {dir};
      }
      DrainOne(dir, dirSummary, sLoop, SameSummary);
      DrainConcat(DescendedAll(cmdline, ns), [(dir, dirSummary)], s0, SameSummary);
    }

    /** `readDB`: the snapshot is swapped in only when the whole file was read. */
    method ReadDB(db: Option<seq<byte>>)
      modifies this`topLevelPrev, this`dirsPrev
      ensures DecodeDB1(db).None? ==> topLevelPrev == old(topLevelPrev) && dirsPrev == old(dirsPrev)
      ensures DecodeDB1(db).Some? ==> (topLevelPrev, dirsPrev) == DecodeDB1(db).value
    {
      if db.None? {
        return;
      }
      var ist := new InStream(db.value);
      var magic := ReadBinary(ist, U32_BYTES);
      ghost var ok1 := !ist.fail;
      if magic != MAGIC1 {
        assert DecodeHeader1(ist.data).None?;
        return;
      }
      var top := ReadDirSummary(ist);
      ghost var ok2 := !ist.fail;
      var dirCount := ReadBinary(ist, SIZE_T_BYTES);
      HeaderRead(ist.data, magic, top, dirCount, ok1, ok2, !ist.fail);
      if ist.fail {
        return;
      }
      ghost var p2 := ist.pos;
      var dirs, ok := ReadDirectoryList(ist, dirCount);
      DecodeDB1Parts(ist.data, top, dirCount, p2);
      if !ok {
        return;
      }
      topLevelPrev := top;
      dirsPrev := dirs;
    }

    /** `writeDB`: None when the file cannot be opened for writing. */
    method WriteDB(canOpen: bool) returns (file: Option<seq<byte>>)
      ensures canOpen ==> file == Some(EncodeDB1(topLevel, dirs))
      ensures !canOpen ==> file.None?
    {
      if !canOpen {
        return None;
      }
      Pow256Widths();
      var os := new OutStream();
      WriteBinary(os, MAGIC1, U32_BYTES);
      WriteDirSummary(os, topLevel);
      WriteBinary(os, SizeT(|dirs|) as nat, SIZE_T_BYTES);
      ghost var header := os.bytes;
      assert header == LE(MAGIC1, U32_BYTES) + EncodeSummary(topLevel) + LE(SizeT(|dirs|) as nat, SIZE_T_BYTES) by {
        assert [] + LE(MAGIC1, U32_BYTES) == LE(MAGIC1, U32_BYTES);
      }
      for i := 0 to |dirs|
        invariant os.bytes == header + EncodeList(EncodeRecord, dirs[..i])
      {
        ghost var before := os.bytes;
        WriteStringBinary(os, dirs[i].0);
        WriteDirSummary(os, dirs[i].1);
        assert os.bytes == header + EncodeList(EncodeRecord, dirs[..i + 1]) by {
          AppendTwo(header, EncodeList(EncodeRecord, dirs[..i]), EncodeString(dirs[i].0), EncodeSummary(dirs[i].1));
          EncodeListSnoc(EncodeRecord, dirs, i);
        }
      }
      assert dirs[..|dirs|] == dirs;
      return Some(os.bytes);
    }
  }

  // ---------------------------------------------------------------------------
  // Properties of the verdict
  // ---------------------------------------------------------------------------

  /** The verdict spelt out: the top-level summary differs, some directory is new, met
      twice or summarised differently, or some directory of the snapshot was not met. */
  lemma {:induction false} ChangedCases(o: Options, fs: Filesystem, topPrev: DirSummary, prev: map<PathString, DirSummary>)
    ensures var items := ScanDirs(o, fs);
            Changed(o, fs, topPrev, prev) <==>
              TopLevel(o, fs) != topPrev
              || (exists i :: 0 <= i < |items| && Flagged(items, i, prev, SameSummary))
              || (exists k :: k in prev && k !in Keys(items))
  {
    var items := ScanDirs(o, fs);
    var s := DrainState(prev, false);
    DrainChanged(items, s, SameSummary);
    DrainPrev(items, s, SameSummary);
    var left := Drain(items, s, SameSummary).prev;
    if exists k :: k in prev && k !in Keys(items) {
      var k :| k in prev && k !in Keys(items);
      assert k in left;
    }
  }

  /** Without a snapshot, the verdict is "changed" exactly when the top-level summary is
      not the empty one or some directory was descended into. */
  lemma {:induction false} FirstRun(o: Options, fs: Filesystem)
    ensures Changed(o, fs, EmptySummary, map[]) <==> TopLevel(o, fs) != EmptySummary || ScanDirs(o, fs) != []
  {
    var items := ScanDirs(o, fs);
    DrainPrev(items, DrainState(map[], false), SameSummary);
    if items != [] {
      DrainEmptySnapshot(items, SameSummary);
    }
  }

  /** A first run with no target in scope and none descended into reports no change. */
  lemma {:induction false} FirstRunWithNothingInScope(o: Options, fs: Filesystem)
    requires !o.includesSubEntriesInTarget
    requires forall i :: 0 <= i < |o.targets| ==> !IsEntryTarget(o, fs(o.targets[i]).entry)
    ensures !Changed(o, fs, EmptySummary, map[])
  {
    var roots := Roots(fs, o.targets);
    NothingInScopeKeepsSummary(o, EmptySummary, EntriesOf(roots));
    NoDescent(o, roots);
    FirstRun(o, fs);
  }

  lemma {:induction false} NoDescent(o: Options, ns: seq<Node>)
    requires !o.includesSubEntriesInTarget
    ensures DescendedAll(o, ns) == []
    decreases |ns|
  {
    if ns != [] {
      NoDescent(o, ns[..|ns| - 1]);
    }
  }

  /** Running again on unchanged targets, with the snapshot the previous run wrote,
      reports no change, provided no directory was met twice. */
  lemma {:induction false} SecondRunUnchanged(o: Options, fs: Filesystem)
    requires DistinctKeys(ScanDirs(o, fs))
    requires |ScanDirs(o, fs)| < U64_MODULUS && AllOk(PathFits, ScanDirs(o, fs))
    ensures var db := DecodeDB1(Some(EncodeDB1(TopLevel(o, fs), ScanDirs(o, fs))));
            db.Some? && !Changed(o, fs, db.value.0, db.value.1)
  {
    var items := ScanDirs(o, fs);
    DB1RoundTrip(TopLevel(o, fs), items);
    DrainOwnSnapshot(items, items, SameSummary);
  }

  /** A directory met twice makes every run report a change. */
  lemma {:induction false} RepeatedDirectoryAlwaysChanged(o: Options, fs: Filesystem, topPrev: DirSummary, prev: map<PathString, DirSummary>, i: nat, j: nat)
    requires i < j < |ScanDirs(o, fs)| && ScanDirs(o, fs)[i].0 == ScanDirs(o, fs)[j].0
    ensures Changed(o, fs, topPrev, prev)
  {
    DrainRepeatedPath(ScanDirs(o, fs), i, j, DrainState(prev, false), SameSummary);
  }
}
