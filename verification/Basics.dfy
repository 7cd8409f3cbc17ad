/** Shared value types: optional values, results, bytes and big-endian numbers. */
module Basics {

  datatype Option<+T> = None | Some(value: T)

  datatype Result<+T, +E> = Ok(value: T) | Err(error: E)

  type byte = b: int | 0 <= b < 256

  const U16_MODULUS: int := 0x1_0000
  const U32_MODULUS: int := 0x1_0000_0000

  type u32 = n: int | 0 <= n < U32_MODULUS

  function Min(a: int, b: int): int {
    if a <= b then a else b
  }

  function Zeros(n: nat): (s: seq<byte>)
    ensures |s| == n
  {
    seq(n, _ => 0)
  }

  /** `u32::to_be_bytes`. */
  function Be32(n: u32): (s: seq<byte>)
    ensures |s| == 4
  {
    [n / 256 / 256 / 256, n / 256 / 256 % 256, n / 256 % 256, n % 256]
  }

  /** `u32::from_be_bytes`. */
  function FromBe32(s: seq<byte>): (n: u32)
    requires |s| == 4
  {
    var b0: int, b1: int, b2: int, b3: int := s[0], s[1], s[2], s[3];
    ((b0 * 256 + b1) * 256 + b2) * 256 + b3
  }

  lemma Be32RoundTrip(n: u32)
    ensures FromBe32(Be32(n)) == n
  {
  }

  /** `u16::to_be_bytes`. */
  function Be16(n: int): (s: seq<byte>)
    requires 0 <= n < U16_MODULUS
    ensures |s| == 2
  {
    [n / 256, n % 256]
  }

  function FromBe16(hi: byte, lo: byte): (n: int)
    ensures 0 <= n < U16_MODULUS
  {
    var h: int := hi;
    h * 256 + lo
  }

  lemma Be16RoundTrip(n: int)
    requires 0 <= n < U16_MODULUS
    ensures FromBe16(Be16(n)[0], Be16(n)[1]) == n
  {
  }

  ghost predicate Distinct<T(!new)>(s: seq<T>) {
    forall i, j :: 0 <= i < j < |s| ==> s[i] != s[j]
  }

  lemma Regroup<T>(a: seq<T>, b: seq<T>, c: seq<T>)
    ensures a + (b + c) == (a + b) + c
  {
  }
}
