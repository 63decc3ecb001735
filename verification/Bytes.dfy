/** Machine integers, optional values, and the little-endian encoding every
    number in a segment file uses. */
module Bytes {

  const U32_LIMIT: nat := 0x1_0000_0000
  const U64_LIMIT: nat := 0x1_0000_0000_0000_0000

  type byte = x: int | 0 <= x < 256
  type u32 = x: int | 0 <= x < 0x1_0000_0000
  type u64 = x: int | 0 <= x < 0x1_0000_0000_0000_0000

  datatype Option<+T> = None | Some(value: T)

  datatype Result<+T, +E> = Ok(value: T) | Err(error: E)

  function Min(a: int, b: int): (m: int)
    ensures m <= a && m <= b && (m == a || m == b)
  {
    if a < b then a else b
  }

  /** 256 to the power w: one more than the largest number w bytes hold. */
  function Limit(w: nat): (r: nat)
    ensures r >= 1
  {
    if w == 0 then 1 else 256 * Limit(w - 1)
  }

  /** The low w bytes of n, least significant first. */
  function ToLe(n: nat, w: nat): (s: seq<byte>)
    ensures |s| == w
  {
    if w == 0 then [] else [n % 256] + ToLe(n / 256, w - 1)
  }

  function FromLe(s: seq<byte>): (n: nat)
    ensures n < Limit(|s|)
  {
    if s == [] then 0 else s[0] + 256 * FromLe(s[1..])
  }

  lemma {:induction false} LeRoundTrip(n: nat, w: nat)
    requires n < Limit(w)
    ensures FromLe(ToLe(n, w)) == n
  {
    if w > 0 {
      LeRoundTrip(n / 256, w - 1);
      assert ToLe(n, w)[1..] == ToLe(n / 256, w - 1);
    }
  }

  lemma {:induction false} LeCanonical(s: seq<byte>)
    ensures ToLe(FromLe(s), |s|) == s
  {
    if s != [] {
      LeCanonical(s[1..]);
      SplitByte(s[0], FromLe(s[1..]));
    }
  }

  lemma SplitByte(b: byte, m: nat)
    ensures (b + 256 * m) % 256 == b && (b + 256 * m) / 256 == m
  {
  }

  /** The first v bytes of an encoding are the shorter encoding. */
  lemma {:induction false} LeFront(n: nat, w: nat, v: nat)
    requires v <= w
    ensures ToLe(n, w)[..v] == ToLe(n, v)
  {
    if v > 0 {
      LeFront(n / 256, w - 1, v - 1);
      assert ToLe(n, w)[..v] == [n % 256] + ToLe(n / 256, w - 1)[..v - 1];
    }
  }

  lemma Limits()
    ensures Limit(4) == U32_LIMIT
    ensures Limit(6) == 0x1_0000_0000_0000
    ensures Limit(8) == U64_LIMIT
  {
    assert Limit(2) == 65536;
    assert Limit(4) == 65536 * 65536;
    assert Limit(6) == 65536 * Limit(4);
    assert Limit(8) == 65536 * Limit(6);
  }

  /** The little-endian number held in w bytes of s from offset off on. */
  function U32At(s: seq<byte>, off: nat): (n: u32)
    requires off + 4 <= |s|
  {
    Limits();
    FromLe(s[off..off + 4])
  }

  function U64At(s: seq<byte>, off: nat): (n: u64)
    requires off + 8 <= |s|
  {
    Limits();
    FromLe(s[off..off + 8])
  }
}
