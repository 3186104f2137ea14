// Fixed-width integers of the C++ code, and the 64-bit keys built from two 32-bit ints
// (modid and cmdid, or ip and port).

module Words {
  type int32 = x: int | -0x8000_0000 <= x < 0x8000_0000
  type uint32 = x: int | 0 <= x < 0x1_0000_0000
  type uint64 = x: int | 0 <= x < 0x1_0000_0000_0000_0000

  // (uint32_t)x
  function AsUint32(x: int32): uint32 {
    if x >= 0 then x else x + 0x1_0000_0000
  }

  // (int)x: the bit pattern read as signed
  function AsInt32(x: uint32): int32 {
    if x < 0x8000_0000 then x else x - 0x1_0000_0000
  }

  // (uint64_t)x sign-extends
  function Extend(x: int32): uint64 {
    if x >= 0 then x else x + 0x1_0000_0000_0000_0000
  }

  // x << 32 drops the high half
  function Shift(x: uint64): uint64 {
    var low: int := x % 0x1_0000_0000;
    low * 0x1_0000_0000
  }

  // x + y wraps around
  function Add(x: uint64, y: uint64): uint64 {
    var sum: int := x + y;
    if sum < 0x1_0000_0000_0000_0000 then sum else sum - 0x1_0000_0000_0000_0000
  }

  // ((uint64_t)hi << 32) + lo
  function Key(hi: int32, lo: int32): uint64 {
    Add(Shift(Extend(hi)), Extend(lo))
  }

  // int(key >> 32) and int(key): how a key is taken apart again
  function High(key: uint64): int32 { AsInt32(key / 0x1_0000_0000) }

  function Low(key: uint64): int32 { AsInt32(key % 0x1_0000_0000) }

  // A negative low word borrows one from the high word.
  lemma DecodeKey(hi: int32, lo: int32)
    ensures Low(Key(hi, lo)) == lo
    ensures High(Key(hi, lo)) == if lo >= 0 then hi else if hi == -0x8000_0000 then 0x7FFF_FFFF else hi - 1
  {
  }

  // The low word always survives; the high word does exactly when the low one is not
  // negative.
  lemma DecodeRecovers(hi: int32, lo: int32)
    ensures Low(Key(hi, lo)) == lo
    ensures High(Key(hi, lo)) == hi <==> lo >= 0
  {
    hide Key, High, Low;
    DecodeKey(hi, lo);
  }

  // No two pairs of 32-bit signed ints share a key.
  lemma KeyInjective(a: int32, b: int32, c: int32, d: int32)
    ensures Key(a, b) == Key(c, d) <==> a == c && b == d
  {
    hide Key, High, Low;
    DecodeKey(a, b);
    DecodeKey(c, d);
  }

  // Encoding what was decoded gives the key back exactly when the decoded low word is
  // not negative; a push looks its hosts up under the pair it decoded.
  lemma EncodeRecovers(key: uint64)
    ensures Key(High(key), Low(key)) == key <==> Low(key) >= 0
  {
  }

  // The % of C truncates toward zero.
  function Remainder(x: int, m: int): (r: int)
    requires m > 0
    ensures x >= 0 ==> 0 <= r < m
    ensures x < 0 ==> -m < r <= 0
  {
    if x >= 0 then x % m else -((-x) % m)
  }
}
