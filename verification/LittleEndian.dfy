/** Bytes, and the little-endian numbers in them. */
module LittleEndian {

  type Byte = x: nat | x < 256

  type Bytes = seq<Byte>

  function U16(s: Bytes, p: nat): nat
    requires p + 2 <= |s|
  {
    (s[p] as int) + 0x100 * (s[p + 1] as int)
  }

  function U32(s: Bytes, p: nat): nat
    requires p + 4 <= |s|
  {
    U16(s, p) + 0x10000 * U16(s, p + 2)
  }

  function Bytes2(x: nat): (b: Bytes)
    requires x < 0x10000
    ensures |b| == 2 && U16(b, 0) == x
  {
    [x % 0x100, x / 0x100]
  }

  function Bytes4(x: nat): (b: Bytes)
    requires x < 0x1_0000_0000
    ensures |b| == 4 && U32(b, 0) == x
  {
    Bytes2(x % 0x10000) + Bytes2(x / 0x10000)
  }

  lemma U32In(a: Bytes, x: Bytes, b: Bytes)
    requires |x| == 4
    ensures U32(a + x + b, |a|) == U32(x, 0)
  {
  }

  lemma U16In(a: Bytes, x: Bytes, b: Bytes)
    requires |x| == 2
    ensures U16(a + x + b, |a|) == U16(x, 0)
  {
  }

  lemma InPlace(a: Bytes, h: Bytes, b: Bytes, k: nat)
    requires k + 4 <= |h|
    ensures U32(a + h + b, |a| + k) == U32(h, k)
    ensures U16(a + h + b, |a| + k) == U16(h, k)
  {
    assert forall i :: 0 <= i < |h| ==> (a + h + b)[|a| + i] == h[i];
  }
}
