/** Fixed-width unsigned integers of the C++ source and the Option wrapper used for
    "not found" and "could not be read". The model fixes the memory layout the source
    leaves to the platform: `unsigned int` and enums are 4 bytes, `size_t` and the
    64-bit file sizes and times are 8 bytes, all little-endian. */
module Basics {

  newtype byte = x: int | 0 <= x < 0x100
  newtype u32 = x: int | 0 <= x < 0x1_0000_0000
  newtype u64 = x: int | 0 <= x < 0x1_0000_0000_0000_0000

  const U32_MODULUS: int := 0x1_0000_0000
  const U64_MODULUS: int := 0x1_0000_0000_0000_0000

  /** Byte widths of the types the source writes with `writeBinary`. */
  const U32_BYTES: nat := 4
  const U64_BYTES: nat := 8
  const SIZE_T_BYTES: nat := 8

  /** 256^n: one more than the largest value n bytes hold. */
  function Pow256(n: nat): (r: nat)
    ensures r >= 1
  {
    if n == 0 then 1 else 256 * Pow256(n - 1)
  }

  lemma {:induction false} Pow256Widths()
    ensures Pow256(U32_BYTES) == U32_MODULUS
    ensures Pow256(U64_BYTES) == U64_MODULUS
  {
  }

  /** A length held in a `size_t`: lengths of vectors and strings in the source. */
  function SizeT(n: nat): (r: u64)
    ensures n < U64_MODULUS ==> r as int == n
  {
    (n % U64_MODULUS) as u64
  }

  datatype Option<T> = None | Some(value: T)

  /** Sequence identities, stated once so that proofs that need them do not have to
      rebuild them element by element. */
  lemma {:induction false} HeadTail<T>(s: seq<T>)
    requires s != []
    ensures [s[0]] + s[1..] == s
  {
  }

  lemma {:induction false} AppendAssoc<T>(x: seq<T>, a: seq<T>, b: seq<T>)
    ensures x + a + b == x + (a + b)
  {
  }
}
