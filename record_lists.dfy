/** The list part of both snapshot files: a count, then that many records written one
    after another. Reading stops at the first record that cannot be read, and the whole
    list is then lost. The record format is a parameter, so that what holds for every
    format is proved once here, apart from the byte-level details of each format. */
module RecordLists {
  import opened Basics
  import opened BinaryIO

  /** The records of `d` written one after another with `enc`. */
  function EncodeList<T>(enc: T -> seq<byte>, d: seq<T>): seq<byte>
    decreases |d|
  {
    if d == [] then [] else EncodeList(enc, d[..|d| - 1]) + enc(d[|d| - 1])
  }

  /** Writing one record more appends its image. */
  lemma {:induction false} EncodeListSnoc<T>(enc: T -> seq<byte>, d: seq<T>, i: nat)
    requires i < |d|
    ensures EncodeList(enc, d[..i + 1]) == EncodeList(enc, d[..i]) + enc(d[i])
  {
    assert d[..i + 1][..i] == d[..i];
  }

  /** The first `count` records read one after another with `dec` from `pos`, and the
      position after them; None when one of them cannot be read. */
  function DecodeList<T>(dec: (seq<byte>, nat) -> Option<(T, nat)>, data: seq<byte>, pos: nat, count: nat): Option<(seq<T>, nat)>
    decreases count
  {
    if count == 0 then Some(([], pos))
    else
      match DecodeList(dec, data, pos, count - 1)
      case None => None
      case Some((xs, p)) =>
        match dec(data, p)
        case None => None
        case Some((x, q)) => Some((xs + [x], q))
  }

  /** Reading one record more after `count` records were read. */
  lemma {:induction false} ListStep<T>(dec: (seq<byte>, nat) -> Option<(T, nat)>, data: seq<byte>, pos: nat, count: nat,
                                       xs: seq<T>, p: nat, x: T, q: nat)
    requires DecodeList(dec, data, pos, count) == Some((xs, p)) && dec(data, p) == Some((x, q))
    ensures DecodeList(dec, data, pos, count + 1) == Some((xs + [x], q))
  {
  }

  /** Once a record cannot be read, no longer list can be read either. */
  lemma {:induction false} ListFails<T>(dec: (seq<byte>, nat) -> Option<(T, nat)>, data: seq<byte>, pos: nat, count: nat,
                                        xs: seq<T>, p: nat, total: nat)
    requires DecodeList(dec, data, pos, count) == Some((xs, p)) && dec(data, p).None?
    requires count < total
    ensures DecodeList(dec, data, pos, total) == None
    decreases total
  {
    if total > count + 1 {
      ListFails(dec, data, pos, count, xs, p, total - 1);
    }
  }

  /** `dec` reads back, anywhere in `data`, each record `enc` wrote of a value `ok`
      accepts. */
  ghost predicate ReadsBack<T(!new)>(dec: (seq<byte>, nat) -> Option<(T, nat)>, enc: T -> seq<byte>, ok: T -> bool, data: seq<byte>) {
    forall x, p: nat :: ok(x) && BytesAt(data, p, enc(x)) ==>
      dec(data, p).Some? && dec(data, p).value.0 == x && dec(data, p).value.1 == p + |enc(x)|
  }

  /** Every record of `d` is one `ok` accepts. */
  predicate AllOk<T>(ok: T -> bool, d: seq<T>) {
    forall i :: 0 <= i < |d| ==> ok(d[i])
  }

  /** Reading back a written list gives the list: `|d|` records read from where the list
      was written are its records, and reading ends where the list does. */
  lemma {:induction false} DecodeListAt<T(!new)>(dec: (seq<byte>, nat) -> Option<(T, nat)>, enc: T -> seq<byte>, ok: T -> bool,
                                                 data: seq<byte>, pos: nat, d: seq<T>)
    requires ReadsBack(dec, enc, ok, data) && AllOk(ok, d)
    requires BytesAt(data, pos, EncodeList(enc, d))
    ensures DecodeList(dec, data, pos, |d|) == Some((d, pos + |EncodeList(enc, d)|))
    decreases |d|
  {
    if d != [] {
      var init := d[..|d| - 1];
      var x := d[|d| - 1];
      var mid := pos + |EncodeList(enc, init)|;
      BytesAtSplitAt(data, pos, EncodeList(enc, init), enc(x), mid);
      assert AllOk(ok, init) by {
        assert forall i :: 0 <= i < |init| ==> init[i] == d[i];
      }
      DecodeListAt(dec, enc, ok, data, pos, init);
      assert ok(x);
      assert dec(data, mid).Some? && dec(data, mid).value.0 == x && dec(data, mid).value.1 == mid + |enc(x)|;
      ListStep(dec, data, pos, |init|, init, mid, x, mid + |enc(x)|);
      assert init + [x] == d;
    }
  }
}
