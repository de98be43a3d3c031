/** misctools/gen-unicode-table.ts: the second stage of a boolean table packed into 64-bit words, and
    the lookup function that is emitted for it. Words are natural numbers below 2^64, and testing or
    setting one bit is arithmetic. */
module PackedTable {
  import opened UnicodeTable

  function Pow2(n: nat): (p: nat)
    ensures p > 0
  {
    if n == 0 then 1 else 2 * Pow2(n - 1)
  }

  /** `(word & (1 << j)) != 0` */
  predicate Bit(word: nat, j: nat) { word / Pow2(j) % 2 == 1 }

  /** `word | (1 << j)` */
  function SetBit(word: nat, j: nat): nat { if Bit(word, j) then word else word + Pow2(j) }

  lemma {:induction false} Pow2Splits(k: nat, j: nat)
    requires k <= j
    ensures Pow2(j) == Pow2(j - k) * Pow2(k)
    decreases j
  {
    if k < j {
      Pow2Splits(k, j - 1);
      assert 2 * (Pow2(j - 1 - k) * Pow2(k)) == 2 * Pow2(j - 1 - k) * Pow2(k);
    }
  }

  lemma {:induction false} Pow2Grows(j: nat, k: nat)
    requires j <= k
    ensures Pow2(j) <= Pow2(k)
    decreases k
  {
    if j < k { Pow2Grows(j, k - 1); }
  }

  lemma MulGrows(a: nat, b: nat, d: nat)
    ensures a <= b ==> a * d <= b * d
  {
  }

  lemma DivUnique(a: nat, d: nat, q: nat)
    requires d > 0 && q * d <= a < q * d + d
    ensures a / d == q
  {
    var q' := a / d;
    assert q' * d <= a < q' * d + d;
    MulGrows(q' + 1, q, d);
    MulGrows(q + 1, q', d);
  }

  lemma DivAdd(a: nat, m: nat, d: nat)
    requires d > 0
    ensures (a + m * d) / d == a / d + m
  {
    var q := a / d;
    assert q * d <= a < q * d + d;
    assert (q + m) * d == q * d + m * d;
    DivUnique(a + m * d, d, q + m);
  }

  lemma HighBitsAreClear(word: nat, j: nat)
    requires word < Pow2(j)
    ensures !Bit(word, j)
  {
    DivUnique(word, Pow2(j), 0);
  }

  lemma LowBitsStay(word: nat, j: nat, k: nat)
    requires k < j
    ensures Bit(word + Pow2(j), k) <==> Bit(word, k)
  {
    Pow2Splits(k, j);
    DivAdd(word, Pow2(j - k), Pow2(k));
    var q, h := word / Pow2(k), Pow2(j - k - 1);
    assert Pow2(j - k) == 2 * h;
    assert (q + 2 * h) % 2 == q % 2;
  }

  /** Setting the next higher bit changes no other one. */
  lemma SetNextBit(word: nat, j: nat, k: nat)
    requires word < Pow2(j)
    ensures SetBit(word, j) == word + Pow2(j) < Pow2(j + 1)
    ensures Bit(word + Pow2(j), k) <==> k == j || Bit(word, k)
  {
    HighBitsAreClear(word, j);
    if k < j {
      LowBitsStay(word, j, k);
    } else if k == j {
      DivUnique(word + Pow2(k), Pow2(k), 1);
    } else {
      Pow2Grows(j + 1, k);
      HighBitsAreClear(word + Pow2(j), k);
      HighBitsAreClear(word, k);
    }
  }

  // ----- Packing -----

  /** The word holds `bits` from `start` on, as far as bit `n`. */
  predicate HoldsBits(word: nat, bits: seq<nat>, start: nat, n: nat) {
    forall j :: 0 <= j < n ==> (Bit(word, j) <==> start + j < |bits| && bits[start + j] != 0)
  }

  lemma OneBit(word: nat, bits: seq<nat>, start: nat, j: nat)
    requires start + j < |bits| && word < Pow2(j) && HoldsBits(word, bits, start, j)
    ensures var word' := if bits[start + j] != 0 then SetBit(word, j) else word;
            word' < Pow2(j + 1) && HoldsBits(word', bits, start, j + 1)
  {
    HighBitsAreClear(word, j);
    SetNextBit(word, j, j);
    var on := bits[start + j] != 0;
    var word' := if on then word + Pow2(j) else word;
    forall k | 0 <= k < j + 1
      ensures Bit(word', k) <==> start + k < |bits| && bits[start + k] != 0
    {
      if on { SetNextBit(word, j, k); }
    }
  }

  /** Bits that are not there are clear. */
  lemma RestIsClear(word: nat, bits: seq<nat>, start: nat, j: nat)
    requires j <= 64 && word < Pow2(j) && HoldsBits(word, bits, start, j) && (j < 64 ==> start + j >= |bits|)
    ensures word < Pow2(64) && HoldsBits(word, bits, start, 64)
  {
    Pow2Grows(j, 64);
    forall k | j <= k < 64 ensures !Bit(word, k) {
      Pow2Grows(j, k);
      HighBitsAreClear(word, k);
    }
  }

  /** `bitsToU64Array` */
  method BitsToWords(bits: seq<nat>) returns (words: seq<nat>)
    ensures 64 * |words| >= |bits| > 64 * (|words| - 1)
    ensures forall w :: 0 <= w < |words| ==> words[w] < Pow2(64) && HoldsBits(words[w], bits, 64 * w, 64)
  {
    words := [];
    var i: nat := 0;
    while i < |bits|
      invariant i == 64 * |words| && |bits| > 64 * (|words| - 1)
      invariant forall w :: 0 <= w < |words| ==> words[w] < Pow2(64) && HoldsBits(words[w], bits, 64 * w, 64)
    {
      var value: nat, j: nat := 0, 0;
      while j < 64 && i + j < |bits|
        invariant 0 <= j <= 64 && value < Pow2(j) && HoldsBits(value, bits, i, j)
      {
        OneBit(value, bits, i, j);
        if bits[i + j] != 0 { value := SetBit(value, j); }
        j := j + 1;
      }
      RestIsClear(value, bits, i, j);
      words := words + [value];
      i := i + 64;
    }
  }

  // ----- The emitted function -----

  /** `pub fn name(cp: u21) bool`, on the tables that are emitted with it. */
  predicate Lookup(stage1: seq<nat>, words: seq<nat>, cp: nat)
    requires cp <= 0x10FFFF ==> cp / 256 < |stage1| && (stage1[cp / 256] + cp % 256) / 64 < |words|
  {
    cp <= 0x10FFFF &&
    var place := stage1[cp / 256] + cp % 256;
    Bit(words[place / 64], place % 64)
  }

  predicate Eql(a: bool, b: bool) { a == b }

  lemma {:induction false} DistinctBooleans(get: nat -> bool, n: nat)
    ensures n > 0 ==> Distinct(get, Eql, n) == [get(0)] || Distinct(get, Eql, n) == [get(0), !get(0)]
    decreases n
  {
    if n > 0 {
      DistinctBooleans(get, n - 1);
      var s := Distinct(get, Eql, n - 1);
      if n > 1 {
        assert s == [get(0), !get(0)] ==> s[1..] == [!get(0)] && FindIndex(s[1..], Eql, !get(0)) == 0;
        assert s == [get(0)] ==> s[1..] == [] && FindIndex(s[1..], Eql, !get(0)) == -1;
        assert get(n - 1) == get(0) || get(n - 1) == !get(0);
      }
    }
  }

  /** The index of a code point is 0 exactly when it is classed like code point 0. */
  lemma IndexOfBoolean(get: nat -> bool, cp: nat)
    ensures Index(get, Eql, cp) == 0 <==> get(cp) == get(0)
  {
    DistinctBooleans(get, cp);
    var s := Distinct(get, Eql, cp);
    assert s != [] ==> s[0] == get(0);
  }

  /** A boolean table has two elements, so only the number of distinct blocks can be too large. */
  lemma BooleansFit(get: nat -> bool, blocks: nat)
    ensures Fits(get, Eql, blocks) <==> |BlocksBelow(get, Eql, blocks)| <= 0x100
  {
    DistinctBooleans(get, BLOCK_SIZE * blocks);
  }

  /** The emitted function, for every predicate whose table could be built: it stays inside its
      tables, and it tells the code points that are not classed like code point 0. */
  lemma LookupTellsFromZero(get: nat -> bool, t: Tables<bool>, words: seq<nat>, cp: nat)
    requires RightTables(get, Eql, UNICODE_BLOCKS, t) && cp <= 0x10FFFF
    requires 64 * |words| >= |t.stage2|
    requires forall w :: 0 <= w < |words| ==> HoldsBits(words[w], t.stage2, 64 * w, 64)
    ensures cp / 256 < |t.stage1| && (t.stage1[cp / 256] + cp % 256) / 64 < |words|
    ensures Lookup(t.stage1, words, cp) <==> get(cp) != get(0)
  {
    LookupFindsElement(get, Eql, UNICODE_BLOCKS, t, cp);
    IndexOfBoolean(get, cp);
    var place := t.stage1[cp / 256] + cp % 256;
    var w, j := place / 64, place % 64;
    assert 64 * w + j == place;
    assert HoldsBits(words[w], t.stage2, 64 * w, 64);
  }

  /** Every lookup stays inside the tables. */
  predicate InRange(stage1: seq<nat>, words: seq<nat>) {
    forall cp: nat :: cp <= 0x10FFFF ==>
      cp / 256 < |stage1| && (stage1[cp / 256] + cp % 256) / 64 < |words|
  }

  /** The emitted function is the predicate it replaces. */
  ghost predicate Replaces(get: nat -> bool, stage1: seq<nat>, words: seq<nat>)
    requires InRange(stage1, words)
  {
    forall cp: nat :: cp <= 0x10FFFF ==> (Lookup(stage1, words, cp) <==> get(cp))
  }

  /** `generateTable`. The tables can be emitted exactly when there are at most 256 distinct blocks, and
      the emitted function is the given predicate exactly when that is false at code point 0. Of a
      predicate that is true there it is the complement. */
  method GenerateTable(get: nat -> bool) returns (ok: bool, stage1: seq<nat>, words: seq<nat>)
    ensures ok <==> |BlocksBelow(get, Eql, UNICODE_BLOCKS)| <= 0x100
    ensures ok ==> InRange(stage1, words)
    ensures ok ==> (Replaces(get, stage1, words) <==> !get(0))
    ensures ok && get(0) ==> Replaces((cp: nat) => !get(cp), stage1, words)
    ensures ok ==> forall w :: 0 <= w < |words| ==> words[w] < Pow2(64)
  {
    var r := Generate(get, Eql, UNICODE_BLOCKS);
    BooleansFit(get, UNICODE_BLOCKS);
    if !r.Ok? {
      return false, [], [];
    }
    words := BitsToWords(r.value.stage2);
    ok, stage1 := true, r.value.stage1;
    forall cp: nat | cp <= 0x10FFFF
      ensures cp / 256 < |stage1| && (stage1[cp / 256] + cp % 256) / 64 < |words|
      ensures Lookup(stage1, words, cp) <==> get(cp) != get(0)
    {
      LookupTellsFromZero(get, r.value, words, cp);
    }
    assert Lookup(stage1, words, 0) <==> get(0) != get(0);
  }
}
