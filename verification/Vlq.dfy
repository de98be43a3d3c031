/** `encodeVLQ` (bench/sourcemap/append-vlq-bench.ts) against the Base64 VLQ rules of ECMA-426. A digit
    is its index in the Base64 alphabet. */
module Vlq {
  import opened Wrappers

  const TWO31: int := 0x8000_0000
  const TWO32: int := 0x1_0000_0000

  // ----- 32-bit operators -----

  function ToUint32(x: int): (r: nat)
    ensures r < TWO32
  {
    x % TWO32
  }

  function ToInt32(x: int): (r: int)
    ensures -TWO31 <= r < TWO31
  {
    (x + TWO31) % TWO32 - TWO31
  }

  /** `x << 1` */
  function Double(x: int): int { ToInt32(2 * ToInt32(x)) }

  /** `x | 1` */
  function SetLowBit(x: int): int { if x % 2 == 0 then x + 1 else x }

  /** The value before the loop. */
  function Signed(value: int): int { if value < 0 then SetLowBit(Double(-value)) else Double(value) }

  // ----- Encoding -----

  /** The digits of an unsigned number, lowest first, each but the last with the continuation bit. */
  function Digits(u: nat): seq<nat> {
    if u / 32 == 0 then [u % 32] else [u % 32 + 32] + Digits(u / 32)
  }

  method EncodeVLQ(value: int) returns (out: seq<nat>)
    ensures out == Digits(ToUint32(Signed(value)))
  {
    var v, more := Signed(value), true;
    ghost var all := Digits(ToUint32(v));
    out := [];
    while more
      invariant all == out + if more then Digits(ToUint32(v)) else []
      decreases more, ToUint32(v)
    {
      FirstDigit(v);
      DigitsStep(ToUint32(v));
      ghost var u, before := ToUint32(v), out;
      var digit := v % 32;
      v := ToUint32(v) / 32;
      if v > 0 { digit := digit + 32; }
      out := out + [digit];
      more := v > 0;
      Append(before, digit, if more then Digits(u / 32) else []);
    }
  }

  lemma Append(a: seq<nat>, d: nat, b: seq<nat>)
    ensures a + [d] + b == a + ([d] + b)
    ensures [d] + [] == [d]
  {
  }

  lemma ModSmall(x: int)
    requires 0 <= x < TWO32
    ensures ToUint32(x) == x
  {
  }

  lemma LowDigit(q: int, u: int)
    ensures (q * TWO32 + u) % 32 == u % 32
  {
    var k := q * 0x800_0000;
    assert q * TWO32 + u == 32 * k + u;
  }

  /** `v & 31` and `v >>> 5` agree with the unsigned reading of `v`. */
  lemma FirstDigit(v: int)
    ensures v % 32 == ToUint32(v) % 32
    ensures ToUint32(ToUint32(v) / 32) == ToUint32(v) / 32
  {
    var u := ToUint32(v);
    assert v == (v / TWO32) * TWO32 + u;
    LowDigit(v / TWO32, u);
    ModSmall(u / 32);
  }

  lemma DigitsStep(u: nat)
    ensures Digits(u) == if u / 32 > 0 then [u % 32 + 32] + Digits(u / 32) else [u % 32]
    ensures u / 32 > 0 ==> u / 32 < u
  {
  }

  // ----- Decoding -----

  /** The first number of a list of digits, unsigned, and what follows it. */
  function DecodeUnsigned(s: seq<nat>): Option<(nat, seq<nat>)> {
    if s == [] then None
    else if s[0] < 32 then Some((s[0], s[1..]))
    else
      match DecodeUnsigned(s[1..])
      case None => None
      case Some((u, rest)) => Some((s[0] % 32 + 32 * u, rest))
  }

  lemma {:induction false} DecodeShortens(s: seq<nat>)
    ensures DecodeUnsigned(s).Some? ==> |DecodeUnsigned(s).value.1| < |s|
    decreases |s|
  {
    if s != [] && s[0] >= 32 { DecodeShortens(s[1..]); }
  }

  /** The sign is the lowest bit, minus zero stands for -2^31, and a magnitude has 31 bits. */
  function DecodeSign(u: nat): Option<int> {
    if u / 2 >= TWO31 then None
    else if u % 2 == 0 then Some(u / 2)
    else if u / 2 == 0 then Some(-TWO31)
    else Some(-(u / 2))
  }

  function DecodeAll(s: seq<nat>): Option<seq<int>>
    decreases |s|
  {
    if s == [] then Some([])
    else
      DecodeShortens(s);
      match DecodeUnsigned(s)
      case None => None
      case Some((u, rest)) =>
        match (DecodeSign(u), DecodeAll(rest))
        case (Some(v), Some(vs)) => Some([v] + vs)
        case _ => None
  }

  function EncodeAll(values: seq<int>): seq<nat> {
    if values == [] then [] else Digits(ToUint32(Signed(values[0]))) + EncodeAll(values[1..])
  }

  // ----- Round trip -----

  lemma {:induction false} DigitsDecode(u: nat, rest: seq<nat>)
    ensures DecodeUnsigned(Digits(u) + rest) == Some((u, rest))
    decreases u
  {
    var s := Digits(u) + rest;
    if u / 32 == 0 {
      assert s[1..] == rest && s[0] == u;
    } else {
      assert s[1..] == Digits(u / 32) + rest && s[0] == u % 32 + 32;
      DigitsDecode(u / 32, rest);
      assert u == u % 32 + 32 * (u / 32);
    }
  }

  lemma {:induction false} DigitsCount(u: nat, bound: nat, n: nat)
    requires n > 0 && u < bound && bound == Power32(n)
    ensures 1 <= |Digits(u)| <= n
    ensures forall i :: 0 <= i < |Digits(u)| ==> Digits(u)[i] < 64
    decreases n
  {
    if u / 32 > 0 {
      assert n > 1;
      DigitsCount(u / 32, Power32(n - 1), n - 1);
    }
  }

  function Power32(n: nat): nat { if n == 0 then 1 else 32 * Power32(n - 1) }

  predicate IsInt32(v: int) { -TWO31 <= v < TWO31 }

  lemma Int32Keeps(x: int)
    ensures ToUint32(ToInt32(x)) == ToUint32(x)
    ensures 0 <= x < TWO31 ==> ToInt32(x) == x
    ensures ToInt32(x) % 2 == x % 2
  {
    var q := (x + TWO31) / TWO32;
    assert ToInt32(x) == x - q * TWO32;
    var r := x / TWO32;
    assert x == r * TWO32 + ToUint32(x);
    assert ToInt32(x) == (r - q) * TWO32 + ToUint32(x);
    ModUnique(ToInt32(x), r - q, ToUint32(x));
    assert q * TWO32 == 2 * (q * TWO31);
  }

  lemma ModUnique(a: int, q: int, r: int)
    requires a == q * TWO32 + r && 0 <= r < TWO32
    ensures a % TWO32 == r
  {
  }

  /** What the sign step makes of a value, in 32 bits. */
  lemma SignedIs(value: int)
    ensures IsInt32(value) ==>
              ToUint32(Signed(value))
              == if value == -TWO31 then 1 else if value < 0 then 2 * -value + 1 else 2 * value
  {
    if IsInt32(value) && value != -TWO31 {
      var x := if value < 0 then -value else value;
      Int32Keeps(x);
      Int32Keeps(2 * x);
      ModSmall(2 * x);
      if value < 0 {
        var d := Double(x);
        assert d % 2 == 0;
        var q := d / TWO32;
        assert d == q * TWO32 + 2 * x;
        ModUnique(d + 1, q, 2 * x + 1);
      }
    }
  }

  /** One value comes back exactly when it is a 32-bit integer. */
  lemma OneRoundTrip(value: int)
    ensures DecodeSign(ToUint32(Signed(value))) == Some(value) <==> IsInt32(value)
  {
    SignedIs(value);
  }

  /** A list of values comes back from the digits of all of them run together, exactly when all of them
      are 32-bit integers. */
  lemma {:induction false} RoundTrip(values: seq<int>)
    ensures DecodeAll(EncodeAll(values)) == Some(values)
            <==> forall i :: 0 <= i < |values| ==> IsInt32(values[i])
    ensures DecodeAll(EncodeAll(values)).Some? && |DecodeAll(EncodeAll(values)).value| == |values|
    decreases |values|
  {
    if values != [] {
      var u, rest := ToUint32(Signed(values[0])), EncodeAll(values[1..]);
      DigitsDecode(u, rest);
      OneRoundTrip(values[0]);
      RoundTrip(values[1..]);
      var v, vs := DecodeSign(u).value, DecodeAll(rest).value;
      assert ([v] + vs)[1..] == vs;
      assert values == [values[0]] + values[1..];
      assert (forall i :: 0 <= i < |values| ==> IsInt32(values[i]))
        <==> IsInt32(values[0]) && forall i :: 0 <= i < |values[1..]| ==> IsInt32(values[1..][i]) by {
        assert forall i :: 0 <= i < |values[1..]| ==> values[1..][i] == values[i + 1];
        assert forall i :: 1 <= i < |values| ==> values[i] == values[1..][i - 1];
      }
    }
  }

  /** No value takes more than 7 digits. */
  lemma AtMostSevenDigits(value: int)
    ensures 1 <= |Digits(ToUint32(Signed(value)))| <= 7
  {
    var p7 := Power32(7);
    assert Power32(1) == 32 && Power32(2) == 1024 && Power32(3) == 32768;
    assert Power32(4) == 32 * 32768 && Power32(5) == 32 * Power32(4) && Power32(6) == 32 * Power32(5);
    DigitsCount(ToUint32(Signed(value)), p7, 7);
  }
}
