/** The length-prefixed binary codec the snapshot files are written with: a value is
    written as its raw bytes, a string as its length (a `size_t`) followed by its
    characters. Streams are modelled as byte sequences; an input stream carries its read
    position and fail bit, which a short read sets and which blocks every later read. */
module BinaryIO {
  import opened Basics
  import opened PathStrings

  // ---------------------------------------------------------------------------
  // Byte images of unsigned values
  // ---------------------------------------------------------------------------

  /** The `width` bytes of an unsigned value `v`, least significant first. */
  function LE(v: nat, width: nat): (bs: seq<byte>)
    requires v < Pow256(width)
    ensures |bs| == width
  {
    if width == 0 then [] else [(v % 256) as byte] + LE(v / 256, width - 1)
  }

  /** The unsigned value whose little-endian image is `bs`. */
  function FromLE(bs: seq<byte>): (v: nat)
    ensures v < Pow256(|bs|)
  {
    if bs == [] then 0 else bs[0] as nat + 256 * FromLE(bs[1..])
  }

  lemma {:induction false} FromLEOfLE(v: nat, width: nat)
    requires v < Pow256(width)
    ensures FromLE(LE(v, width)) == v
  {
    if width > 0 {
      FromLEOfLE(v / 256, width - 1);
      assert LE(v, width)[1..] == LE(v / 256, width - 1);
    }
  }

  lemma {:induction false} LEOfFromLE(bs: seq<byte>)
    ensures LE(FromLE(bs), |bs|) == bs
  {
    if bs != [] {
      LEOfFromLE(bs[1..]);
      assert FromLE(bs) % 256 == bs[0] as nat;
      assert FromLE(bs) / 256 == FromLE(bs[1..]);
    }
  }

  /** The image of `a + b` is `a` in the low bytes and `b` above them. */
  lemma {:induction false} FromLEAppend(a: seq<byte>, b: seq<byte>)
    ensures FromLE(a + b) == FromLE(a) + Pow256(|a|) * FromLE(b)
  {
    if a == [] {
      assert a + b == b;
    } else {
      FromLEAppend(a[1..], b);
      assert (a + b)[1..] == a[1..] + b;
      assert |a[1..]| == |a| - 1;
      ShiftByte(a[0] as nat, FromLE(a[1..]), Pow256(|a| - 1), FromLE(b));
    }
  }

  lemma {:induction false} ShiftByte(b0: nat, x: nat, p: nat, y: nat)
    ensures b0 + 256 * (x + p * y) == (b0 + 256 * x) + (256 * p) * y
  {
  }

  function Zeros(n: nat): (z: seq<byte>)
    ensures |z| == n && forall i :: 0 <= i < n ==> z[i] == 0
  {
    seq(n, _ => 0)
  }

  lemma {:induction false} FromLEZeros(n: nat)
    ensures FromLE(Zeros(n)) == 0
  {
    if n > 0 {
      FromLEZeros(n - 1);
      assert Zeros(n)[1..] == Zeros(n - 1);
    }
  }

  /** Bytes past the ones read stay as the zero of `T v = T()`: they add nothing. */
  lemma {:induction false} FromLEZeroExtended(a: seq<byte>, n: nat)
    ensures FromLE(a + Zeros(n)) == FromLE(a)
  {
    FromLEAppend(a, Zeros(n));
    FromLEZeros(n);
  }

  // ---------------------------------------------------------------------------
  // Strings as bytes
  // ---------------------------------------------------------------------------

  function ToBytes(s: PathString): (bs: seq<byte>)
    ensures |bs| == |s| && forall i :: 0 <= i < |s| ==> bs[i] as int == s[i] as int
  {
    seq(|s|, i requires 0 <= i < |s| => s[i] as int as byte)
  }

  function ToChars(bs: seq<byte>): (s: PathString)
    ensures |s| == |bs| && forall i :: 0 <= i < |bs| ==> s[i] as int == bs[i] as int
  {
    seq(|bs|, i requires 0 <= i < |bs| => bs[i] as int as char)
  }

  lemma {:induction false} CharsOfBytes(s: PathString)
    ensures ToChars(ToBytes(s)) == s
  {
    assert forall i :: 0 <= i < |s| ==> ToChars(ToBytes(s))[i] as int == s[i] as int;
  }

  /** What `writeStringBinary` emits: the length as a `size_t`, then the characters,
      with no terminator. */
  function EncodeString(s: PathString): (bs: seq<byte>)
    ensures |bs| == SIZE_T_BYTES + |s|
    ensures bs[SIZE_T_BYTES..] == ToBytes(s)
  {
    Pow256Widths();
    LE(SizeT(|s|) as nat, SIZE_T_BYTES) + ToBytes(s)
  }

  // ---------------------------------------------------------------------------
  // Reading from a byte sequence, as a pure function of the position
  // ---------------------------------------------------------------------------

  /** The unsigned value of the `width` bytes at `pos`, least significant first. */
  function FromLEAt(data: seq<byte>, pos: nat, width: nat): (v: nat)
    requires pos + width <= |data|
    ensures v < Pow256(width)
    decreases width
  {
    if width == 0 then 0 else data[pos] as nat + 256 * FromLEAt(data, pos + 1, width - 1)
  }

  lemma {:induction false} FromLEAtSlice(data: seq<byte>, pos: nat, width: nat)
    requires pos + width <= |data|
    ensures FromLEAt(data, pos, width) == FromLE(data[pos..pos + width])
    decreases width
  {
    if width > 0 {
      FromLEAtSlice(data, pos + 1, width - 1);
      var bs := data[pos..pos + width];
      assert bs[0] == data[pos] && bs[1..] == data[pos + 1..pos + 1 + (width - 1)];
    }
  }

  /** The characters of the `size` bytes at `pos`. */
  function CharsAt(data: seq<byte>, pos: nat, size: nat): (s: PathString)
    requires pos + size <= |data|
    ensures |s| == size && forall i :: 0 <= i < size ==> s[i] as int == data[pos + i] as int
  {
    seq(size, i requires 0 <= i < size => data[pos + i] as int as char)
  }

  /** The unsigned value of `width` bytes at `pos`, and the position after it; None
      when fewer than `width` bytes remain. */
  function DecodeLE(data: seq<byte>, pos: nat, width: nat): (r: Option<(nat, nat)>)
    ensures r.Some? <==> pos + width <= |data|
    ensures r.Some? ==> r.value.0 < Pow256(width) && r.value.1 == pos + width
  {
    if pos + width <= |data| then Some((FromLEAt(data, pos, width), pos + width)) else None
  }

  /** A length-prefixed string at `pos`; None when the length or the characters are cut
      short. */
  function DecodeString(data: seq<byte>, pos: nat): (r: Option<(PathString, nat)>)
    ensures r.Some? ==> pos + SIZE_T_BYTES + |r.value.0| == r.value.1 <= |data|
  {
    match DecodeLE(data, pos, SIZE_T_BYTES)
    case None => None
    case Some((size, p)) =>
      if p + size <= |data| then Some((CharsAt(data, p, size), p + size)) else None
  }

  /** `bs` lies in `data` from `pos` on, compared byte by byte. */
  predicate BytesAt(data: seq<byte>, pos: nat, bs: seq<byte>)
    decreases |bs|
  {
    if bs == [] then pos <= |data|
    else pos < |data| && data[pos] == bs[0] && BytesAt(data, pos + 1, bs[1..])
  }

  /** `BytesAt` says that `data[pos..pos + |bs|]` is `bs`. */
  lemma {:induction false} BytesAtSlice(data: seq<byte>, pos: nat, bs: seq<byte>)
    ensures BytesAt(data, pos, bs) <==> pos + |bs| <= |data| && data[pos..pos + |bs|] == bs
    decreases |bs|
  {
    if bs != [] {
      BytesAtSlice(data, pos + 1, bs[1..]);
      if pos + |bs| <= |data| {
        assert data[pos..pos + |bs|] == [data[pos]] + data[pos + 1..pos + 1 + |bs[1..]|];
        HeadTail(bs);
      }
    }
  }

  lemma {:induction false} BytesAtSplit(data: seq<byte>, pos: nat, a: seq<byte>, b: seq<byte>)
    requires BytesAt(data, pos, a + b)
    ensures BytesAt(data, pos, a) && BytesAt(data, pos + |a|, b)
  {
    BytesAtSlice(data, pos, a + b);
    BytesAtSlice(data, pos, a);
    BytesAtSlice(data, pos + |a|, b);
    assert data[pos..pos + |a|] == (a + b)[..|a|];
    assert data[pos + |a|..pos + |a| + |b|] == (a + b)[|a|..];
  }

  /** `BytesAtSplit` with the position of the second part given. */
  lemma {:induction false} BytesAtSplitAt(data: seq<byte>, pos: nat, a: seq<byte>, b: seq<byte>, mid: nat)
    requires BytesAt(data, pos, a + b) && mid == pos + |a|
    ensures BytesAt(data, pos, a) && BytesAt(data, mid, b)
  {
    BytesAtSplit(data, pos, a, b);
  }

  /** Where each of four concatenated parts starts. */
  lemma {:induction false} BytesAtFour(data: seq<byte>, a: seq<byte>, b: seq<byte>, c: seq<byte>, e: seq<byte>)
    requires data == a + b + c + e
    ensures BytesAt(data, 0, a) && BytesAt(data, |a|, b)
    ensures BytesAt(data, |a| + |b|, c) && BytesAt(data, |a| + |b| + |c|, e)
  {
    BytesAtSlice(data, 0, a);
    BytesAtSlice(data, |a|, b);
    BytesAtSlice(data, |a| + |b|, c);
    BytesAtSlice(data, |a| + |b| + |c|, e);
    assert data[..|a|] == a;
    assert data[|a|..|a| + |b|] == b;
    assert data[|a| + |b|..|a| + |b| + |c|] == c;
    assert data[|a| + |b| + |c|..] == e;
  }

  lemma {:induction false} DecodeLEAt(data: seq<byte>, pos: nat, v: nat, width: nat)
    requires v < Pow256(width) && BytesAt(data, pos, LE(v, width))
    ensures DecodeLE(data, pos, width) == Some((v, pos + width))
  {
    BytesAtSlice(data, pos, LE(v, width));
    FromLEAtSlice(data, pos, width);
    FromLEOfLE(v, width);
  }

  /** Reading a string back where `writeStringBinary` put it gives the string. */
  lemma {:induction false} DecodeStringAt(data: seq<byte>, pos: nat, s: PathString)
    requires |s| < U64_MODULUS && BytesAt(data, pos, EncodeString(s))
    ensures DecodeString(data, pos) == Some((s, pos + |EncodeString(s)|))
  {
    Pow256Widths();
    BytesAtSplit(data, pos, LE(|s|, SIZE_T_BYTES), ToBytes(s));
    DecodeLEAt(data, pos, |s|, SIZE_T_BYTES);
    BytesAtSlice(data, pos + SIZE_T_BYTES, ToBytes(s));
    var t := CharsAt(data, pos + SIZE_T_BYTES, |s|);
    assert forall i :: 0 <= i < |s| ==> data[pos + SIZE_T_BYTES + i] == ToBytes(s)[i];
    assert forall i :: 0 <= i < |s| ==> t[i] == s[i];
    assert t == s;
  }

  // ---------------------------------------------------------------------------
  // Streams
  // ---------------------------------------------------------------------------

  /** An output stream: the bytes written so far. */
  class OutStream {
    var bytes: seq<byte>

    constructor ()
      ensures bytes == []
    {
      bytes := [];
    }

    /** `ostream::write`. */
    method Write(bs: seq<byte>)
      modifies this
      ensures bytes == old(bytes) + bs
    {
      bytes := bytes + bs;
    }
  }

  /** An input stream over a file's bytes: the read position and the fail bit. */
  class InStream {
    const data: seq<byte>
    var pos: nat
    var fail: bool

    ghost predicate Valid()
      reads this
    {
      pos <= |data|
    }

    constructor (data: seq<byte>)
      ensures Valid() && this.data == data && pos == 0 && !fail
    {
      this.data := data;
      pos := 0;
      fail := false;
    }

    /** `istream::read(buf, n)`: nothing is read once the fail bit is set; otherwise up
        to `n` bytes are copied into `buf`, and fewer than `n` sets the fail bit. */
    method Read(buf: array<byte>, n: nat) returns (count: nat)
      requires Valid() && n <= buf.Length
      modifies this, buf
      ensures Valid()
      ensures count == if old(fail) then 0 else if old(pos) + n <= |data| then n else |data| - old(pos)
      ensures pos == old(pos) + count
      ensures fail == (old(fail) || count < n)
      ensures buf[..count] == data[old(pos)..pos]
      ensures buf[count..] == old(buf[count..])
    {
      count := 0;
      if fail {
        return;
      }
      while count < n && pos < |data|
        invariant Valid() && pos == old(pos) + count && count <= n && !fail
        invariant buf[..count] == data[old(pos)..pos]
        invariant forall k :: count <= k < buf.Length ==> buf[k] == old(buf[k])
      {
        buf[count] := data[pos];
        count := count + 1;
        pos := pos + 1;
      }
      if count < n {
        fail := true;
      }
    }
  }

  // ---------------------------------------------------------------------------
  // writeBinary / readBinary / writeStringBinary / readStringBinary
  // ---------------------------------------------------------------------------

  const MAX_CHARS: nat := 1024

  /** `writeBinary`: appends exactly the `width` bytes of `v`. */
  method WriteBinary(os: OutStream, v: nat, width: nat)
    requires v < Pow256(width)
    modifies os
    ensures os.bytes == old(os.bytes) + LE(v, width)
    ensures |os.bytes| == |old(os.bytes)| + width
  {
    os.Write(LE(v, width));
  }

  /** `readBinary`: starts from the zero value and overwrites it with the bytes read, so a
      stream already failed yields 0, and a short read yields the bytes there were. */
  method ReadBinary(ist: InStream, width: nat) returns (v: nat)
    requires ist.Valid()
    modifies ist
    ensures ist.Valid() && v < Pow256(width)
    ensures old(ist.fail) ==> v == 0 && ist.fail && ist.pos == old(ist.pos)
    ensures !old(ist.fail) && old(ist.pos) + width <= |ist.data| ==>
              !ist.fail && DecodeLE(ist.data, old(ist.pos), width) == Some((v, ist.pos))
    ensures !old(ist.fail) && old(ist.pos) + width > |ist.data| ==>
              ist.fail && ist.pos == |ist.data| && v == FromLE(ist.data[old(ist.pos)..])
  {
    var buf := new byte[width](_ => 0);
    ghost var zeros := buf[..];
    assert zeros == Zeros(width);
    var count := ist.Read(buf, width);
    assert buf[..] == buf[..count] + buf[count..];
    assert buf[count..] == Zeros(width - count);
    v := FromLE(buf[..]);
    FromLEZeroExtended(buf[..count], width - count);
    assert buf[..count] == ist.data[old(ist.pos)..ist.pos];
    if !old(ist.fail) && old(ist.pos) + width <= |ist.data| {
      FromLEAtSlice(ist.data, old(ist.pos), width);
    }
    if ist.pos == |ist.data| {
      assert ist.data[old(ist.pos)..ist.pos] == ist.data[old(ist.pos)..];
    }
    if old(ist.fail) {
      FromLEZeros(width);
    }
  }

  /** `writeStringBinary`. */
  method WriteStringBinary(os: OutStream, s: PathString)
    modifies os
    ensures os.bytes == old(os.bytes) + EncodeString(s)
  {
    Pow256Widths();
    var size := SizeT(|s|) as nat;
    WriteBinary(os, size, SIZE_T_BYTES);
    os.Write(ToBytes(s));
    AppendAssoc(old(os.bytes), LE(size, SIZE_T_BYTES), ToBytes(s));
  }

  /** `readStringBinary`: the empty string when the length cannot be read or is zero;
      otherwise that many characters, read through a 1024-byte buffer or, when longer, a
      buffer of the exact size. Neither buffer is initialised, so after a short read the
      characters past the ones read are unspecified (the fail bit is then set). The
      allocation of the larger buffer is taken to succeed, whatever the length read. */
  method ReadStringBinary(ist: InStream) returns (s: PathString)
    requires ist.Valid()
    modifies ist
    ensures ist.Valid()
    ensures old(ist.fail) ==> ist.fail && s == []
    ensures !old(ist.fail) && old(ist.pos) + SIZE_T_BYTES > |ist.data| ==> ist.fail && s == []
    ensures !old(ist.fail) && DecodeString(ist.data, old(ist.pos)).Some? ==>
              !ist.fail && DecodeString(ist.data, old(ist.pos)) == Some((s, ist.pos))
    ensures !old(ist.fail) && DecodeString(ist.data, old(ist.pos)).None? ==> ist.fail
  {
    var size := ReadBinary(ist, SIZE_T_BYTES);
    if ist.fail {
      return [];
    }
    if size == 0 {
      return [];
    }
    var buf: array<byte>;
    if size <= MAX_CHARS {
      buf := new byte[MAX_CHARS];
    } else {
      buf := new byte[size];
    }
    var count := ist.Read(buf, size);
    s := ToChars(buf[..size]);
    if !ist.fail {
      assert buf[..size] == ist.data[old(ist.pos) + SIZE_T_BYTES..ist.pos];
      assert forall i :: 0 <= i < size ==> s[i] == CharsAt(ist.data, old(ist.pos) + SIZE_T_BYTES, size)[i];
      assert s == CharsAt(ist.data, old(ist.pos) + SIZE_T_BYTES, size);
    }
  }

  /** `readBinary` of what `writeBinary(v)` wrote gives `v` back and uses up the bytes. */
  method BinaryRoundTrip(v: nat, width: nat) returns (r: nat, consumed: nat)
    requires v < Pow256(width)
    ensures r == v && consumed == width
  {
    var os := new OutStream();
    WriteBinary(os, v, width);
    var ist := new InStream(os.bytes);
    BytesAtSlice(ist.data, 0, LE(v, width));
    DecodeLEAt(ist.data, 0, v, width);
    r := ReadBinary(ist, width);
    consumed := ist.pos;
  }

  /** `readStringBinary` of what `writeStringBinary(s)` wrote gives `s` back; which of the
      two buffers is used makes no difference. */
  method StringRoundTrip(s: PathString) returns (r: PathString)
    requires |s| < U64_MODULUS
    ensures r == s
  {
    var os := new OutStream();
    WriteStringBinary(os, s);
    var ist := new InStream(os.bytes);
    BytesAtSlice(ist.data, 0, EncodeString(s));
    DecodeStringAt(ist.data, 0, s);
    r := ReadStringBinary(ist);
  }
}
