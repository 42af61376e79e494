/** Machine integers, characters and results shared by the models. */
module Basics {

  const TWO_32 := 0x1_0000_0000
  const TWO_63 := 0x8000_0000_0000_0000
  const TWO_64 := 0x1_0000_0000_0000_0000

  /** A value, or the fatal error that ends the program. */
  datatype Result<T, E> = Ok(value: T) | Fatal(error: E)

  datatype Option<T> = None | Some(value: T)

  newtype Byte = b: int | 0 <= b < 256

  /** Truncation to uint64. */
  function U64(v: int): nat {
    v % TWO_64
  }

  lemma SmallU64(v: int)
    requires 0 <= v < TWO_64
    ensures U64(v) == v
  {
  }

  /** Truncation adds or removes whole multiples of 2^64. */
  lemma {:induction false} U64Congruent(v: int, k: int)
    requires 0 <= v + k * 0x1_0000_0000_0000_0000 < 0x1_0000_0000_0000_0000
    ensures U64(v) == v + k * 0x1_0000_0000_0000_0000
  {
  }

  predicate IsInt64(v: int) {
    -TWO_63 <= v < TWO_63
  }

  /** Truncation to int64. */
  function S64(v: int): int {
    (v + TWO_63) % TWO_64 - TWO_63
  }

  lemma S64Exact(v: int)
    requires IsInt64(v)
    ensures S64(v) == v
  {
  }

  lemma {:induction false} S64Congruent(v: int, k: int)
    requires -0x8000_0000_0000_0000 <= v + k * 0x1_0000_0000_0000_0000 < 0x8000_0000_0000_0000
    ensures S64(v) == v + k * 0x1_0000_0000_0000_0000
  {
  }

  /** isspace in the default locale. */
  predicate IsSpace(c: char) {
    c == ' ' || c == '\t' || c == '\n' || c == '\r' || c as int == 11 || c as int == 12
  }
}
