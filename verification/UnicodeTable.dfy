/** The lookup tables of misctools/unicode-generator.ts: every code point's element, kept as an index
    into the distinct elements, in blocks of 256 of which equal ones are stored once. The block hash
    is taken to be injective, so the map from hashes is a map from blocks. */
module UnicodeTable {

  const BLOCK_SIZE: nat := 256

  /** The blocks of Unicode: 0x10FFFF is the last code point of the last one. The generator itself is
      modelled for any number of blocks. */
  const UNICODE_BLOCKS: nat := 0x1100

  datatype Tables<E> = Tables(stage1: seq<nat>, stage2: seq<nat>, stage3: seq<E>)

  datatype Result<+T> = Ok(value: T) | BlockIndexTooLarge | Stage2IndexTooLarge

  /** `findIndex(item => eql(item, elem))` */
  function FindIndex<E>(s: seq<E>, eql: (E, E) -> bool, elem: E): (i: int)
    ensures -1 <= i < |s|
    ensures i >= 0 ==> eql(s[i], elem) && forall k :: 0 <= k < i ==> !eql(s[k], elem)
    ensures i < 0 ==> forall k :: 0 <= k < |s| ==> !eql(s[k], elem)
  {
    if s == [] then -1
    else if eql(s[0], elem) then 0
    else
      var i := FindIndex(s[1..], eql, elem);
      if i < 0 then -1 else i + 1
  }

  /** The distinct elements of the first `n` code points. */
  function Distinct<E>(get: nat -> E, eql: (E, E) -> bool, n: nat): seq<E> {
    if n == 0 then []
    else
      var s := Distinct(get, eql, n - 1);
      if FindIndex(s, eql, get(n - 1)) < 0 then s + [get(n - 1)] else s
  }

  /** The index of a code point's element. */
  function Index<E>(get: nat -> E, eql: (E, E) -> bool, cp: nat): (i: nat)
    ensures i <= |Distinct(get, eql, cp)|
  {
    var s := Distinct(get, eql, cp);
    if FindIndex(s, eql, get(cp)) < 0 then |s| else FindIndex(s, eql, get(cp))
  }

  /** The indexes of the code points of block `b`. */
  function Block<E>(get: nat -> E, eql: (E, E) -> bool, b: nat): (block: seq<nat>)
    ensures |block| == BLOCK_SIZE
  {
    seq<nat>(BLOCK_SIZE, i requires 0 <= i < BLOCK_SIZE => Index(get, eql, BLOCK_SIZE * b + i))
  }

  /** The distinct ones of the first `n` blocks. */
  ghost function BlocksBelow<E>(get: nat -> E, eql: (E, E) -> bool, n: nat): set<seq<nat>> {
    set b | 0 <= b < n :: Block(get, eql, b)
  }

  // ----- Elements -----

  lemma {:induction false} DistinctGrows<E>(get: nat -> E, eql: (E, E) -> bool, n: nat, m: nat)
    requires n <= m
    ensures Distinct(get, eql, n) <= Distinct(get, eql, m)
    decreases m
  {
    if n < m { DistinctGrows(get, eql, n, m - 1); }
  }

  /** The third stage holds elements of code points only, and no two that are equal. */
  lemma {:induction false} DistinctIsDistinct<E>(get: nat -> E, eql: (E, E) -> bool, n: nat, i: nat, j: nat)
    returns (cp: nat)
    requires i < j < |Distinct(get, eql, n)|
    ensures cp < n && Distinct(get, eql, n)[j] == get(cp)
    ensures !eql(Distinct(get, eql, n)[i], Distinct(get, eql, n)[j])
    decreases n
  {
    var before, s, x := Distinct(get, eql, n - 1), Distinct(get, eql, n), get(n - 1);
    if j < |before| {
      cp := DistinctIsDistinct(get, eql, n - 1, i, j);
      assert s[i] == before[i] && s[j] == before[j];
    } else {
      cp := n - 1;
      assert s == before + [x] && s[i] == before[i] && s[j] == x;
      assert FindIndex(before, eql, x) < 0;
      assert !eql(before[i], x);
    }
  }

  /** The index of a code point stays that of its element. */
  lemma IndexIsRight<E>(get: nat -> E, eql: (E, E) -> bool, cp: nat, n: nat)
    requires cp < n
    ensures var i, s := Index(get, eql, cp), Distinct(get, eql, n);
            i < |s| && (s[i] == get(cp) || eql(s[i], get(cp)))
  {
    var s := Distinct(get, eql, cp + 1);
    DistinctGrows(get, eql, cp + 1, n);
    assert s[Index(get, eql, cp)] == Distinct(get, eql, n)[Index(get, eql, cp)];
  }

  // ----- The generator -----

  /** What the tables hold after `n` blocks. */
  ghost predicate Holds<E>(
    get: nat -> E, eql: (E, E) -> bool, n: nat, stage1: seq<nat>, stage2: seq<nat>, blockMap: map<seq<nat>, nat>)
  {
    && |stage1| == n
    && (forall b :: 0 <= b < n ==> Block(get, eql, b) in blockMap && blockMap[Block(get, eql, b)] == stage1[b])
    && blockMap.Keys == BlocksBelow(get, eql, n)
    && |stage2| == BLOCK_SIZE * |blockMap| && |blockMap| <= 0x100
    && (forall k :: k in blockMap ==> Stored(stage2, k, blockMap[k]))
  }

  /** `block` is in `stage2` at `offset`, and the offset fits in 16 bits. */
  predicate Stored(stage2: seq<nat>, block: seq<nat>, offset: nat) {
    && offset % BLOCK_SIZE == 0 && offset <= 0xffff && offset + BLOCK_SIZE <= |stage2|
    && stage2[offset..offset + BLOCK_SIZE] == block
  }

  lemma BlocksStep<E>(get: nat -> E, eql: (E, E) -> bool, n: nat)
    ensures BlocksBelow(get, eql, n + 1) == BlocksBelow(get, eql, n) + {Block(get, eql, n)}
  {
  }

  /** One more block that was seen before. */
  lemma OldBlock<E>(
      get: nat -> E, eql: (E, E) -> bool, n: nat, stage1: seq<nat>, stage2: seq<nat>, blockMap: map<seq<nat>, nat>)
    requires Holds(get, eql, n, stage1, stage2, blockMap) && Block(get, eql, n) in blockMap
    ensures Holds(get, eql, n + 1, stage1 + [blockMap[Block(get, eql, n)]], stage2, blockMap)
  {
    BlocksStep(get, eql, n);
  }

  /** One more block that is new. */
  lemma NewBlock<E>(
      get: nat -> E, eql: (E, E) -> bool, n: nat, stage1: seq<nat>, stage2: seq<nat>, blockMap: map<seq<nat>, nat>)
    requires Holds(get, eql, n, stage1, stage2, blockMap) && Block(get, eql, n) !in blockMap
    requires |stage2| <= 0xffff
    ensures var block := Block(get, eql, n);
            Holds(get, eql, n + 1, stage1 + [|stage2|], stage2 + block, blockMap[block := |stage2|])
  {
    hide Block, Distinct, Index, BlocksBelow, Stored;
    BlocksStep(get, eql, n);
    var block := Block(get, eql, n);
    var stage1', stage2', blockMap' := stage1 + [|stage2|], stage2 + block, blockMap[block := |stage2|];
    assert blockMap'.Keys == blockMap.Keys + {block};
    forall k | k in blockMap' ensures Stored(stage2', k, blockMap'[k]) {
      if k != block { StaysStored(stage2, block, k, blockMap[k]); } else { JustStored(stage2, block); }
    }
    forall b | 0 <= b < n + 1
      ensures Block(get, eql, b) in blockMap' && blockMap'[Block(get, eql, b)] == stage1'[b]
    {
      if b < n { assert Block(get, eql, b) in blockMap; }
    }
  }

  lemma JustStored(stage2: seq<nat>, block: seq<nat>)
    requires |stage2| % BLOCK_SIZE == 0 && |stage2| <= 0xffff && |block| == BLOCK_SIZE
    ensures Stored(stage2 + block, block, |stage2|)
  {
    assert (stage2 + block)[|stage2|..|stage2| + BLOCK_SIZE] == block;
  }

  lemma StaysStored(stage2: seq<nat>, more: seq<nat>, block: seq<nat>, offset: nat)
    requires Stored(stage2, block, offset)
    ensures Stored(stage2 + more, block, offset)
  {
    assert (stage2 + more)[offset..offset + BLOCK_SIZE] == stage2[offset..offset + BLOCK_SIZE];
  }

  lemma FewerBlocks<E>(get: nat -> E, eql: (E, E) -> bool, n: nat, m: nat)
    requires n <= m
    ensures |BlocksBelow(get, eql, n)| <= |BlocksBelow(get, eql, m)|
  {
    var extra := BlocksBelow(get, eql, m) - BlocksBelow(get, eql, n);
    assert BlocksBelow(get, eql, m) == BlocksBelow(get, eql, n) + extra;
  }

  /** Whether the tables can be built: indexes and offsets have 16 bits. */
  ghost predicate Fits<E>(get: nat -> E, eql: (E, E) -> bool, blocks: nat) {
    |Distinct(get, eql, BLOCK_SIZE * blocks)| <= 0x10000 && |BlocksBelow(get, eql, blocks)| <= 0x100
  }

  /** Filing an element: its index in `stage3`, where it is appended if it is new. */
  method FileElement<E>(get: nat -> E, eql: (E, E) -> bool, cp: nat, stage3: seq<E>)
    returns (blockIdx: nat, stage3': seq<E>)
    requires stage3 == Distinct(get, eql, cp)
    ensures blockIdx == Index(get, eql, cp) && stage3' == Distinct(get, eql, cp + 1)
    ensures blockIdx > 0xffff ==> |stage3'| > 0x10000
    ensures blockIdx <= 0xffff && |stage3| <= 0x10000 ==> |stage3'| <= 0x10000
  {
    var elem := get(cp);
    var i := FindIndex(stage3, eql, elem);
    stage3' := stage3;
    if i == -1 {
      i := |stage3|;
      stage3' := stage3 + [elem];
    }
    blockIdx := i;
  }

  lemma NothingHolds<E>(get: nat -> E, eql: (E, E) -> bool)
    ensures Holds(get, eql, 0, [], [], map[]) && Distinct(get, eql, 0) == []
  {
    assert BlocksBelow(get, eql, 0) == {};
  }

  /** Filing a complete block: its offset in `stage2`, where it is appended if it is new. */
  method FileBlock<E>(
      ghost get: nat -> E, ghost eql: (E, E) -> bool, ghost n: nat,
      block: seq<nat>, stage1: seq<nat>, stage2: seq<nat>, blockMap: map<seq<nat>, nat>)
    returns (ok: bool, stage1': seq<nat>, stage2': seq<nat>, blockMap': map<seq<nat>, nat>)
    requires Holds(get, eql, n, stage1, stage2, blockMap) && block == Block(get, eql, n)
    ensures ok ==> Holds(get, eql, n + 1, stage1', stage2', blockMap')
    ensures !ok ==> |BlocksBelow(get, eql, n + 1)| > 0x100
  {
    stage1', stage2', blockMap' := stage1, stage2, blockMap;
    var stage2Idx: nat;
    if block in blockMap {
      stage2Idx := blockMap[block];
      assert Stored(stage2, block, stage2Idx);
      OldBlock(get, eql, n, stage1, stage2, blockMap);
    } else {
      stage2Idx := |stage2|;
      blockMap' := blockMap[block := stage2Idx];
      stage2' := stage2 + block;
      if stage2Idx <= 0xffff { NewBlock(get, eql, n, stage1, stage2, blockMap); }
    }
    if stage2Idx > 0xffff {
      BlocksStep(get, eql, n);
      assert |BlocksBelow(get, eql, n + 1)| == |blockMap.Keys| + 1;
      return false, stage1', stage2', blockMap';
    }
    stage1' := stage1 + [stage2Idx];
    ok := true;
  }

  /** `Generator.generate`. It succeeds exactly when everything fits, and then every block is found
      through `stage1`, and every distinct block is stored once. */
  method Generate<E>(get: nat -> E, eql: (E, E) -> bool, blocks: nat) returns (r: Result<Tables<E>>)
    ensures r.Ok? <==> Fits(get, eql, blocks)
    ensures r.Ok? ==> RightTables(get, eql, blocks, r.value)
  {
    hide Block, Distinct, Index, BlocksBelow, Holds, RightTables;
    var codePoints := BLOCK_SIZE * blocks;
    var stage1: seq<nat>, stage2: seq<nat>, stage3: seq<E> := [], [], [];
    var blockMap: map<seq<nat>, nat> := map[];
    var block: seq<nat> := [];
    ghost var b := 0;
    var cp := 0;
    NothingHolds(get, eql);
    while cp < codePoints
      invariant cp == BLOCK_SIZE * b + |block| <= codePoints
      invariant |block| < BLOCK_SIZE && block == Block(get, eql, b)[..|block|]
      invariant Holds(get, eql, b, stage1, stage2, blockMap)
      invariant stage3 == Distinct(get, eql, cp) && |stage3| <= 0x10000
    {
      var blockIdx;
      blockIdx, stage3 := FileElement(get, eql, cp, stage3);
      if blockIdx > 0xffff {
        DistinctGrows(get, eql, cp + 1, codePoints);
        return BlockIndexTooLarge;
      }
      OneMore(get, eql, b, block);
      block := block + [blockIdx];
      cp := cp + 1;
      // The last code point completes a block, so no block is left incomplete.
      if |block| == BLOCK_SIZE {
        var ok;
        ok, stage1, stage2, blockMap := FileBlock(get, eql, b, block, stage1, stage2, blockMap);
        b := b + 1;
        if !ok {
          FewerBlocks(get, eql, b, blocks);
          return Stage2IndexTooLarge;
        }
        block := [];
      }
    }
    r := Ok(Tables(stage1, stage2, stage3));
    HoldsIsRight(get, eql, blocks, r.value, blockMap);
  }

  lemma OneMore<E>(get: nat -> E, eql: (E, E) -> bool, b: nat, block: seq<nat>)
    requires |block| < BLOCK_SIZE && block == Block(get, eql, b)[..|block|]
    ensures var more := block + [Index(get, eql, BLOCK_SIZE * b + |block|)];
            && more == Block(get, eql, b)[..|block| + 1]
            && (|more| == BLOCK_SIZE ==> more == Block(get, eql, b))
  {
  }

  lemma HoldsIsRight<E>(
      get: nat -> E, eql: (E, E) -> bool, blocks: nat, t: Tables<E>, blockMap: map<seq<nat>, nat>)
    requires Holds(get, eql, blocks, t.stage1, t.stage2, blockMap)
    requires t.stage3 == Distinct(get, eql, BLOCK_SIZE * blocks)
    ensures RightTables(get, eql, blocks, t) && |BlocksBelow(get, eql, blocks)| <= 0x100
  {
    assert |blockMap| == |blockMap.Keys|;
    forall b | 0 <= b < blocks ensures Stored(t.stage2, Block(get, eql, b), t.stage1[b]) {
      assert Stored(t.stage2, Block(get, eql, b), blockMap[Block(get, eql, b)]);
    }
  }

  /** What the tables are. */
  ghost predicate RightTables<E>(get: nat -> E, eql: (E, E) -> bool, blocks: nat, t: Tables<E>) {
    && |t.stage1| == blocks
    && |t.stage2| == BLOCK_SIZE * |BlocksBelow(get, eql, blocks)|
    && t.stage3 == Distinct(get, eql, BLOCK_SIZE * blocks)
    && (forall b :: 0 <= b < blocks ==> Stored(t.stage2, Block(get, eql, b), t.stage1[b]))
    && (forall b, c :: 0 <= b < blocks && 0 <= c < blocks && Block(get, eql, b) == Block(get, eql, c) ==>
          t.stage1[b] == t.stage1[c])
  }

  /** Every code point's element is found, and every index on the way is in range. */
  lemma LookupFindsElement<E>(get: nat -> E, eql: (E, E) -> bool, blocks: nat, t: Tables<E>, cp: nat)
    requires RightTables(get, eql, blocks, t) && cp < 256 * blocks
    ensures cp / 256 < |t.stage1|
    ensures var place := t.stage1[cp / 256] + cp % 256;
            && place <= 0xffff && place < |t.stage2|
            && t.stage2[place] == Index(get, eql, cp)
            && t.stage2[place] < |t.stage3|
            && (t.stage3[t.stage2[place]] == get(cp) || eql(t.stage3[t.stage2[place]], get(cp)))
  {
    var b, i := cp / 256, cp % 256;
    Whereabouts(cp, b, i, blocks);
    StoredAt(t.stage2, Block(get, eql, b), t.stage1[b], i);
    IndexIsRight(get, eql, cp, BLOCK_SIZE * blocks);
  }

  lemma Whereabouts(cp: nat, b: nat, i: nat, blocks: nat)
    requires b == cp / 256 && i == cp % 256 && cp < 256 * blocks
    ensures b < blocks && BLOCK_SIZE * b + i == cp
  {
  }

  lemma StoredAt(stage2: seq<nat>, block: seq<nat>, offset: nat, i: nat)
    requires |block| == BLOCK_SIZE && Stored(stage2, block, offset) && i < BLOCK_SIZE
    ensures offset + i < |stage2| && stage2[offset + i] == block[i] && offset + i <= 0xffff
  {
    assert stage2[offset..offset + BLOCK_SIZE][i] == stage2[offset + i];
  }

  /** Blocks share their place exactly when they are equal. */
  lemma EqualBlocksShareTheirPlace<E>(
      get: nat -> E, eql: (E, E) -> bool, blocks: nat, t: Tables<E>, b: nat, c: nat)
    requires RightTables(get, eql, blocks, t) && b < blocks && c < blocks
    ensures t.stage1[b] == t.stage1[c] <==> Block(get, eql, b) == Block(get, eql, c)
    ensures t.stage1[b] != t.stage1[c] ==> t.stage1[b] + 256 <= t.stage1[c] || t.stage1[c] + 256 <= t.stage1[b]
  {
    assert Stored(t.stage2, Block(get, eql, b), t.stage1[b]);
    assert Stored(t.stage2, Block(get, eql, c), t.stage1[c]);
  }
}
