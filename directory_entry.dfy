/** Directory entries (one file-system object with its type, size and last-write time),
    the conversions from the Win32 attribute data they are built from, and the finite
    tree of entries a scan walks. */
module Entries {
  import opened Basics
  import opened PathStrings
  import BinaryIO

  /** The `FileType` enum. A C++ enum object holds any value of its 32-bit underlying
      type, which is what a snapshot read back from disk may contain, so the type is the
      whole 32-bit range with three named values. */
  newtype FileType = x: int | 0 <= x < 0x1_0000_0000
  const FILETYPE_ERROR: FileType := 0
  const FILETYPE_REGULAR: FileType := 1
  const FILETYPE_DIRECTORY: FileType := 2

  type FileTime = u64
  type FileSize = u64

  /** One file-system object: the directory it was found in, its name, and the metadata
      read for it. Type `FILETYPE_ERROR` means the metadata could not be read. */
  datatype DirectoryEntry = DirectoryEntry(
    dir: PathString,
    filename: PathString,
    fileType: FileType,
    size: FileSize,
    lastWriteTime: FileTime)
  {
    /** The full path: the directory and the name joined by `ConcatPath`. */
    function GetPath(): (p: PathString)
      ensures dir == [] ==> p == filename
      ensures filename == [] ==> p == dir
      ensures |dir| <= |p| && p[..|dir|] == dir
      ensures |filename| <= |p| && p[|p| - |filename|..] == filename
    {
      ConcatPath(dir, filename)
    }

    predicate IsDirectory() {
      fileType == FILETYPE_DIRECTORY
    }

    predicate IsRegularFile() {
      fileType == FILETYPE_REGULAR
    }

    /** `assign`: the enumerator's update to the next sibling; the directory is kept. */
    function Assign(filename: PathString, fileType: FileType, size: FileSize, lastWriteTime: FileTime): (e: DirectoryEntry)
      ensures e.dir == dir
      ensures e.filename == filename && e.fileType == fileType
      ensures e.size == size && e.lastWriteTime == lastWriteTime
    {
      this.(filename := filename, fileType := fileType, size := size, lastWriteTime := lastWriteTime)
    }
  }

  /** The constructor with its defaulted arguments left out: no metadata. */
  function EntryWithoutMetadata(dir: PathString, filename: PathString): (e: DirectoryEntry)
    ensures e.dir == dir && e.filename == filename
    ensures e.fileType == FILETYPE_ERROR && e.size == 0 && e.lastWriteTime == 0
    ensures !e.IsDirectory() && !e.IsRegularFile()
  {
    DirectoryEntry(dir, filename, FILETYPE_ERROR, 0, 0)
  }

  /** A default-constructed entry. */
  const DefaultEntry: DirectoryEntry := EntryWithoutMetadata([], [])

  /** An entry is never both a directory and a regular file, and an entry without
      metadata is neither. */
  lemma {:induction false} EntryKindsExclusive(e: DirectoryEntry)
    ensures !(e.IsDirectory() && e.IsRegularFile())
    ensures e.fileType == FILETYPE_ERROR ==> !e.IsDirectory() && !e.IsRegularFile()
  {
  }

  // ---------------------------------------------------------------------------
  // Win32 conversions
  // ---------------------------------------------------------------------------

  /** `INVALID_FILE_ATTRIBUTES`, i.e. `(DWORD)-1`. */
  const INVALID_FILE_ATTRIBUTES: u32 := 0xFFFF_FFFF
  const FILE_ATTRIBUTE_DIRECTORY: u32 := 0x10

  predicate HasDirectoryAttribute(attributes: u32) {
    (attributes as bv32) & (FILE_ATTRIBUTE_DIRECTORY as bv32) != 0
  }

  /** `win32FileType`. */
  function Win32FileType(attributes: u32): (t: FileType)
    ensures t == FILETYPE_ERROR || t == FILETYPE_REGULAR || t == FILETYPE_DIRECTORY
    ensures t == FILETYPE_ERROR <==> attributes == INVALID_FILE_ATTRIBUTES
    ensures t == FILETYPE_DIRECTORY <==> attributes != INVALID_FILE_ATTRIBUTES && HasDirectoryAttribute(attributes)
  {
    if attributes == INVALID_FILE_ATTRIBUTES then FILETYPE_ERROR
    else if HasDirectoryAttribute(attributes) then FILETYPE_DIRECTORY
    else FILETYPE_REGULAR
  }

  /** `win32ULargeInteger`: the two halves stored into a `ULARGE_INTEGER` and its
      64-bit `QuadPart` read back, i.e. the low half's bytes followed by the high
      half's. */
  function Win32ULargeInteger(low: u32, high: u32): (r: u64)
    ensures r as int == high as int * U32_MODULUS + low as int
  {
    Pow256Widths();
    var quad := BinaryIO.LE(low as nat, U32_BYTES) + BinaryIO.LE(high as nat, U32_BYTES);
    BinaryIO.FromLEAppend(BinaryIO.LE(low as nat, U32_BYTES), BinaryIO.LE(high as nat, U32_BYTES));
    BinaryIO.FromLEOfLE(low as nat, U32_BYTES);
    BinaryIO.FromLEOfLE(high as nat, U32_BYTES);
    BinaryIO.FromLE(quad) as u64
  }

  /** `FILETIME`: a 64-bit time split in two 32-bit halves. */
  datatype FileTimeHalves = FileTimeHalves(dwLowDateTime: u32, dwHighDateTime: u32)

  function Win32FileSize(low: u32, high: u32): (r: FileSize)
    ensures r as int == high as int * U32_MODULUS + low as int
  {
    Win32ULargeInteger(low, high)
  }

  function Win32FileTime(ft: FileTimeHalves): (r: FileTime)
    ensures r as int == ft.dwHighDateTime as int * U32_MODULUS + ft.dwLowDateTime as int
  {
    Win32ULargeInteger(ft.dwLowDateTime, ft.dwHighDateTime)
  }

  /** What `GetFileAttributesEx` fills in (`WIN32_FILE_ATTRIBUTE_DATA`). */
  datatype FileAttributeData = FileAttributeData(
    attributes: u32,
    sizeLow: u32,
    sizeHigh: u32,
    lastWriteTime: FileTimeHalves)

  /** `getPathDirectoryEntry`: the entry for a command-line path, split into directory
      and name; `stat` is the attribute query's result, None when it failed. */
  function GetPathDirectoryEntry(p: PathString, stat: Option<FileAttributeData>): (e: DirectoryEntry)
    ensures e.dir == GetPathDirectoryPart(p) && e.filename == GetPathFileNamePart(p)
    ensures stat.None? ==> e.fileType == FILETYPE_ERROR && e.size == 0 && e.lastWriteTime == 0
    ensures stat.Some? ==> e.fileType == Win32FileType(stat.value.attributes)
    ensures stat.Some? ==> e.size as int == stat.value.sizeHigh as int * U32_MODULUS + stat.value.sizeLow as int
    ensures stat.Some? ==>
              e.lastWriteTime as int ==
              stat.value.lastWriteTime.dwHighDateTime as int * U32_MODULUS + stat.value.lastWriteTime.dwLowDateTime as int
  {
    match stat
    case None => EntryWithoutMetadata(GetPathDirectoryPart(p), GetPathFileNamePart(p))
    case Some(data) =>
      DirectoryEntry(
        GetPathDirectoryPart(p),
        GetPathFileNamePart(p),
        Win32FileType(data.attributes),
        Win32FileSize(data.sizeLow, data.sizeHigh),
        Win32FileTime(data.lastWriteTime))
  }

  // ---------------------------------------------------------------------------
  // The file system a scan sees
  // ---------------------------------------------------------------------------

  /** A file-system object and, for a directory, what enumerating it yields: one node per
      child other than `.` and `..`, in the platform's order. A directory that cannot be
      opened has no children. */
  datatype Node = Node(entry: DirectoryEntry, children: seq<Node>)

  /** The node found at each path, with the directory's enumeration below it. What ties
      it to the platform is stated separately, by `WellFormed`. */
  type Filesystem = PathString -> Node

  /** The enumerator starts from an entry holding the directory's path and `assign`s each
      child's name and metadata to it, so every child carries its parent's full path as
      its directory, all the way down. */
  ghost predicate ChildrenUnder(n: Node)
    decreases n
  {
    forall i :: 0 <= i < |n.children| ==>
      n.children[i].entry.dir == n.entry.GetPath() && ChildrenUnder(n.children[i])
  }

  /** A file system as the platform presents it: the node at each path holds what
      `getPathDirectoryEntry` returns for the path, given `stats`, the attribute query's
      result for each path, and every enumeration below it is built by the enumerator. */
  ghost predicate WellFormed(fs: Filesystem, stats: PathString -> Option<FileAttributeData>) {
    forall p :: fs(p).entry == GetPathDirectoryEntry(p, stats(p)) && ChildrenUnder(fs(p))
  }

  /** In a well-formed tree, a child's full path is its parent's path joined with its
      name, and so starts with the parent's path. */
  lemma {:induction false} ChildPath(n: Node, i: nat)
    requires ChildrenUnder(n) && i < |n.children|
    ensures var c := n.children[i].entry;
            c.GetPath() == ConcatPath(n.entry.GetPath(), c.filename)
            && n.entry.GetPath() == c.GetPath()[..|n.entry.GetPath()|]
  {
    assert n.children[i].entry.dir == n.entry.GetPath();
  }
}
