/** The package name table of misctools/generate-add-completions.ts: the generator writes it, the Rust
    code it emits reads it back and serves the names by first letter. Names are ASCII, sorted and not
    empty; compression is the identity. */
module Completions {
  import opened Wrappers
  import opened LittleEndian

  // ----- Writing and reading the table -----

  predicate Short(names: seq<Bytes>) { forall i :: 0 <= i < |names| ==> |names[i]| < 0x10000 }

  /** Every name with its length in front. */
  function Packed(names: seq<Bytes>): Bytes
    requires Short(names)
  {
    if names == [] then [] else Bytes2(|names[0]|) + names[0] + Packed(names[1..])
  }

  function Table(names: seq<Bytes>): Bytes
    requires Short(names) && |names| < 0x1_0000_0000
  {
    Bytes4(|names|) + Packed(names)
  }

  /** The generator; None when a length does not fit its field and the write throws. */
  method WriteTable(names: seq<Bytes>) returns (data: Option<Bytes>)
    ensures data.Some? <==> Short(names) && |names| < 0x1_0000_0000
    ensures data.Some? ==> data.value == Table(names)
  {
    if |names| >= 0x1_0000_0000 {
      return None;
    }
    var chunks: Bytes := Bytes4(|names|);
    assert names[..0] == [];
    for k := 0 to |names|
      invariant Short(names[..k]) && chunks == Bytes4(|names|) + Packed(names[..k])
    {
      if |names[k]| >= 0x10000 {
        return None;
      }
      assert names[..k + 1] == names[..k] + [names[k]];
      PackedAppend(names[..k], names[k]);
      chunks := chunks + Bytes2(|names[k]|) + names[k];
    }
    assert names[..|names|] == names;
    return Some(chunks);
  }

  lemma {:induction false} PackedAppend(names: seq<Bytes>, name: Bytes)
    requires Short(names) && |name| < 0x10000
    ensures Short(names + [name]) && Packed(names + [name]) == Packed(names) + Bytes2(|name|) + name
    decreases |names|
  {
    hide Bytes2;
    if names == [] {
      assert names + [name] == [name] && [name][1..] == [];
    } else {
      assert (names + [name])[1..] == names[1..] + [name] && (names + [name])[0] == names[0];
      PackedAppend(names[1..], name);
    }
  }

  /** The emitted `build_table`, from some position on; None where the slice would be out of bounds. */
  function ReadNames(data: Bytes, pos: nat, n: nat): Option<seq<Bytes>>
    decreases n
  {
    if n == 0 then Some([])
    else if pos + 2 > |data| || pos + 2 + U16(data, pos) > |data| then None
    else
      var next := pos + 2 + U16(data, pos);
      match ReadNames(data, next, n - 1)
      case None => None
      case Some(rest) => Some([data[pos + 2..next]] + rest)
  }

  method BuildTable(data: Bytes) returns (packages: Option<seq<Bytes>>)
    ensures packages == if |data| < 4 then None else ReadNames(data, 4, U32(data, 0))
  {
    if |data| < 4 {
      return None;
    }
    var total := U32(data, 0);
    var read: seq<Bytes>, pos: nat := [], 4;
    assert forall rest: seq<Bytes> :: [] + rest == rest;
    for k := 0 to total
      invariant ReadNames(data, 4, total)
                == (match ReadNames(data, pos, total - k) case None => None case Some(rest) => Some(read + rest))
    {
      if pos + 2 > |data| {
        return None;
      }
      var len := U16(data, pos);
      if pos + 2 + len > |data| {
        return None;
      }
      ghost var rest := ReadNames(data, pos + 2 + len, total - k - 1);
      assert rest.Some? ==> read + ([data[pos + 2..pos + 2 + len]] + rest.value) == read + [data[pos + 2..pos + 2 + len]] + rest.value;
      read := read + [data[pos + 2..pos + 2 + len]];
      pos := pos + 2 + len;
    }
    assert read + [] == read;
    return Some(read);
  }

  lemma {:induction false} ReadsBack(before: Bytes, names: seq<Bytes>, after: Bytes)
    requires Short(names)
    ensures ReadNames(before + Packed(names) + after, |before|, |names|) == Some(names)
    decreases |names|
  {
    hide Bytes2;
    if names != [] {
      var len, name, rest := Bytes2(|names[0]|), names[0], Packed(names[1..]);
      Regroup(before, len, name, rest, after);
      U16In(before, len, name + rest + after);
      ReadsBack(before + len + name, names[1..], after);
      assert names == [name] + names[1..];
    }
  }

  lemma Regroup(before: Bytes, len: Bytes, name: Bytes, rest: Bytes, after: Bytes)
    ensures before + (len + name + rest) + after == before + len + (name + rest + after)
    ensures before + (len + name + rest) + after == (before + len + name) + rest + after
    ensures var data := before + (len + name + rest) + after;
            data[|before| + |len|..|before| + |len| + |name|] == name
  {
  }

  /** Every table that could be written is read back name by name. */
  lemma TableRoundTrip(names: seq<Bytes>)
    requires Short(names) && |names| < 0x1_0000_0000
    ensures |Table(names)| >= 4 && ReadNames(Table(names), 4, U32(Table(names), 0)) == Some(names)
  {
    var count := Bytes4(|names|);
    assert Table(names) == [] + count + Packed(names);
    U32In([], count, Packed(names));
    assert Table(names) == count + Packed(names) + [];
    ReadsBack(count, names, []);
  }

  // ----- The index -----

  const A: nat := 97
  const Z: nat := 122

  /** `pkg[0].toLowerCase()` */
  function Lower(b: nat): nat { if 65 <= b <= 90 then b + 32 else b }

  predicate NotEmpty(names: seq<Bytes>) { forall i :: 0 <= i < |names| ==> names[i] != [] }

  /** First characters never go down. This is all of the order that matters here. */
  predicate SortedByFirst(names: seq<Bytes>)
    requires NotEmpty(names)
  {
    forall i, j :: 0 <= i < j < |names| ==> names[i][0] <= names[j][0]
  }

  /** How many names start with the letter in either case, which is the length of its group. */
  function GroupLen(names: seq<Bytes>, letter: nat): (n: nat)
    requires NotEmpty(names)
    ensures n <= |names|
  {
    if names == [] then 0
    else GroupLen(names[1..], letter) + if Lower(names[0][0]) == letter then 1 else 0
  }

  /** The length of all groups from `a` up to, and without, the letter. */
  function GroupOffset(names: seq<Bytes>, letter: nat): nat
    requires NotEmpty(names)
    decreases letter
  {
    if letter <= A then 0 else GroupOffset(names, letter - 1) + GroupLen(names, letter - 1)
  }

  function GroupIn(groups: map<nat, nat>, letter: nat): nat { if letter in groups then groups[letter] else 0 }

  lemma {:induction false} GroupLenAppend(names: seq<Bytes>, name: Bytes, letter: nat)
    requires NotEmpty(names) && name != []
    ensures GroupLen(names + [name], letter) == GroupLen(names, letter) + if Lower(name[0]) == letter then 1 else 0
    decreases |names|
  {
    if names == [] {
      assert names + [name] == [name] && [name][1..] == [];
    } else {
      assert (names + [name])[1..] == names[1..] + [name] && (names + [name])[0] == names[0];
      GroupLenAppend(names[1..], name, letter);
    }
  }

  /** Grouping the names by first letter. */
  method GroupNames(names: seq<Bytes>) returns (groups: map<nat, nat>)
    requires NotEmpty(names)
    ensures forall l: nat :: GroupIn(groups, l) == GroupLen(names, l)
  {
    groups := map[];
    for k := 0 to |names|
      invariant forall l: nat :: GroupIn(groups, l) == GroupLen(names[..k], l)
    {
      var first := Lower(names[k][0]);
      assert names[..k + 1] == names[..k] + [names[k]];
      forall l: nat ensures GroupLen(names[..k + 1], l) == GroupLen(names[..k], l) + if first == l then 1 else 0 {
        GroupLenAppend(names[..k], names[k], l);
      }
      ghost var before := groups;
      groups := groups[first := GroupIn(groups, first) + 1];
      assert forall l: nat :: GroupIn(groups, l) == GroupIn(before, l) + if first == l then 1 else 0;
    }
    assert names[..|names|] == names;
  }

  /** The index entries from `a` on. */
  ghost predicate Indexed(names: seq<Bytes>, index: seq<(nat, nat)>)
    requires NotEmpty(names)
  {
    forall k :: 0 <= k < |index| ==> index[k] == (GroupOffset(names, A + k), GroupLen(names, A + k))
  }

  /** One more entry, and the offset after it. */
  function AddEntry(index: seq<(nat, nat)>, offset: nat, len: nat): (seq<(nat, nat)>, nat) {
    (index + [(offset, len)], offset + len)
  }

  lemma AddEntryIsRight(names: seq<Bytes>, groups: map<nat, nat>, index: seq<(nat, nat)>, offset: nat)
    requires NotEmpty(names) && Indexed(names, index) && offset == GroupOffset(names, A + |index|)
    requires forall l: nat :: GroupIn(groups, l) == GroupLen(names, l)
    ensures var next := AddEntry(index, offset, GroupIn(groups, A + |index|));
            |next.0| == |index| + 1 && Indexed(names, next.0) && next.1 == GroupOffset(names, A + |index| + 1)
  {
  }

  /** Offsets add up the groups of the letters only. */
  method BuildIndex(names: seq<Bytes>) returns (index: seq<(nat, nat)>)
    requires NotEmpty(names)
    ensures |index| == 26 && Indexed(names, index)
    ensures forall k :: 0 <= k < 26 ==> index[k].1 == GroupLen(names, 'a' as int + k)
  {
    var groups := GroupNames(names);
    index := [];
    var offset: nat := 0;
    while |index| <= Z - A
      invariant |index| <= Z - A + 1 && Indexed(names, index) && offset == GroupOffset(names, A + |index|)
    {
      AddEntryIsRight(names, groups, index, offset);
      var next := AddEntry(index, offset, GroupIn(groups, A + |index|));
      index, offset := next.0, next.1;
    }
  }

  /** `get_packages`; None where the slice would be out of bounds. */
  function GetPackages(packages: seq<Bytes>, index: seq<(nat, nat)>, letter: nat): Option<seq<Bytes>>
    requires A <= letter < A + |index|
  {
    var (offset, len) := index[letter - A];
    if len == 0 then Some([])
    else if offset + len > |packages| then None
    else Some(packages[offset..offset + len])
  }

  /** The names that start with the letter. */
  function Starting(names: seq<Bytes>, letter: nat): seq<Bytes>
    requires NotEmpty(names)
  {
    if names == [] then []
    else (if names[0][0] == letter then [names[0]] else []) + Starting(names[1..], letter)
  }

  // ----- When the index is right -----

  /** How many names start below a character, in a sorted list. */
  function Below(names: seq<Bytes>, c: nat): (n: nat)
    requires NotEmpty(names)
    ensures n <= |names|
  {
    if names == [] then 0 else Below(names[1..], c) + if names[0][0] < c then 1 else 0
  }

  lemma SortedRest(names: seq<Bytes>)
    requires names != [] && NotEmpty(names) && SortedByFirst(names)
    ensures NotEmpty(names[1..]) && SortedByFirst(names[1..])
    ensures forall i :: 0 <= i < |names[1..]| ==> names[1..][i][0] >= names[0][0]
  {
    var rest := names[1..];
    assert forall i :: 0 <= i < |rest| ==> rest[i] == names[i + 1];
  }

  lemma {:induction false} StartingIsRun(names: seq<Bytes>, c: nat)
    requires NotEmpty(names) && SortedByFirst(names)
    ensures Below(names, c) <= Below(names, c + 1) <= |names|
    ensures Starting(names, c) == names[Below(names, c)..Below(names, c + 1)]
    decreases |names|
  {
    if names != [] {
      SortedRest(names);
      StartingIsRun(names[1..], c);
      StartingStep(names[0], names[1..], c);
      assert names == [names[0]] + names[1..];
    }
  }

  lemma OneMoreName(name: Bytes, rest: seq<Bytes>, c: nat)
    requires name != [] && NotEmpty(rest)
    ensures var names := [name] + rest;
            && NotEmpty(names)
            && Below(names, c) == Below(rest, c) + (if name[0] < c then 1 else 0)
            && Starting(names, c) == (if name[0] == c then [name] else []) + Starting(rest, c)
  {
    assert ([name] + rest)[1..] == rest;
  }

  lemma StartingStep(name: Bytes, rest: seq<Bytes>, c: nat)
    requires name != [] && NotEmpty(rest) && forall i :: 0 <= i < |rest| ==> rest[i][0] >= name[0]
    requires Below(rest, c) <= Below(rest, c + 1) && Starting(rest, c) == rest[Below(rest, c)..Below(rest, c + 1)]
    ensures var names := [name] + rest;
            && NotEmpty(names) && Below(names, c) <= Below(names, c + 1)
            && Starting(names, c) == names[Below(names, c)..Below(names, c + 1)]
  {
    hide Below, Starting, NotEmpty;
    OneMoreName(name, rest, c);
    OneMoreName(name, rest, c + 1);
    if name[0] >= c { NoneBelow(rest, c); }
    if name[0] > c { NoneBelow(rest, c + 1); }
    SliceStep(name, rest, Below(rest, c), Below(rest, c + 1));
  }

  lemma SliceStep(name: Bytes, rest: seq<Bytes>, i: nat, j: nat)
    requires i <= j <= |rest|
    ensures ([name] + rest)[i + 1..j + 1] == [] + rest[i..j]
    ensures ([name] + rest)[0..j + 1] == [name] + rest[0..j]
    ensures ([name] + rest)[0..0] == [] + rest[0..0]
  {
  }

  lemma {:induction false} NoneBelow(names: seq<Bytes>, c: nat)
    requires NotEmpty(names) && forall i :: 0 <= i < |names| ==> names[i][0] >= c
    ensures Below(names, c) == 0
    decreases |names|
  {
    if names != [] { NoneBelow(names[1..], c); }
  }

  predicate NoCapital(names: seq<Bytes>)
    requires NotEmpty(names)
  {
    forall i :: 0 <= i < |names| ==> !(65 <= names[i][0] <= 90)
  }

  lemma {:induction false} GroupLenIs(names: seq<Bytes>, c: nat)
    requires NotEmpty(names) && A <= c <= Z
    ensures GroupLen(names, c) >= |Starting(names, c)|
    ensures GroupLen(names, c) == |Starting(names, c)| <==> forall i :: 0 <= i < |names| ==> names[i][0] != c - 32
    decreases |names|
  {
    if names != [] {
      var rest := names[1..];
      assert forall i :: 0 <= i < |rest| ==> rest[i] == names[i + 1];
      assert forall i :: 1 <= i < |names| ==> names[i] == rest[i - 1];
      GroupLenIs(rest, c);
    }
  }

  lemma {:induction false} OffsetIsBelow(names: seq<Bytes>, c: nat)
    requires NotEmpty(names) && SortedByFirst(names) && NoCapital(names) && A <= c <= Z + 1
    ensures GroupOffset(names, c) + Below(names, A) == Below(names, c)
    decreases c
  {
    if c > A {
      OffsetIsBelow(names, c - 1);
      GroupLenIs(names, c - 1);
      StartingIsRun(names, c - 1);
    }
  }

  /** Every letter gets exactly the names that start with it. */
  ghost predicate IndexIsRight(names: seq<Bytes>, index: seq<(nat, nat)>)
    requires NotEmpty(names) && |index| == Z - A + 1
  {
    forall l :: 'a' as int <= l <= 'z' as int ==> GetPackages(names, index, l) == Some(Starting(names, l))
  }

  lemma RightWhenNothingIsBefore(names: seq<Bytes>, index: seq<(nat, nat)>, l: nat)
    requires |index| == Z - A + 1 && NotEmpty(names) && Indexed(names, index)
    requires SortedByFirst(names) && NoCapital(names) && A <= l <= Z
    requires Below(names, A) == 0 || Starting(names, l) == []
    ensures GetPackages(names, index, l) == Some(Starting(names, l))
  {
    GroupLenIs(names, l);
    OffsetIsBelow(names, l);
    StartingIsRun(names, l);
  }

  lemma WrongWhenSomethingIsBefore(names: seq<Bytes>, index: seq<(nat, nat)>, l: nat)
    requires |index| == Z - A + 1 && NotEmpty(names) && Indexed(names, index)
    requires SortedByFirst(names) && NoCapital(names) && A <= l <= Z
    requires Below(names, A) > 0 && Starting(names, l) != []
    ensures GetPackages(names, index, l) != Some(Starting(names, l))
  {
    GroupLenIs(names, l);
    OffsetIsBelow(names, l);
    StartingIsRun(names, l);
    var o := GroupOffset(names, l);
    BelowSplits(names, l);
    assert names[o][0] < l;
    assert Starting(names, l)[0] == names[Below(names, l)];
  }

  /** In a sorted list, the names below a character come first. */
  lemma {:induction false} BelowSplits(names: seq<Bytes>, c: nat)
    requires NotEmpty(names) && SortedByFirst(names)
    ensures forall i :: 0 <= i < |names| ==> (names[i][0] < c <==> i < Below(names, c))
    decreases |names|
  {
    if names != [] {
      var rest := names[1..];
      assert forall i :: 0 <= i < |rest| ==> rest[i] == names[i + 1];
      BelowSplits(rest, c);
      if names[0][0] >= c { NoneBelow(rest, c); }
    }
  }

  /** The index that was built serves every letter exactly when no name starts with a capital, and either no name
      comes before the letter `a` or no name starts with a letter at all. */
  lemma IndexIsRightIff(names: seq<Bytes>, index: seq<(nat, nat)>)
    requires NotEmpty(names) && SortedByFirst(names) && |index| == Z - A + 1 && Indexed(names, index)
    ensures IndexIsRight(names, index) <==>
              NoCapital(names) && (Below(names, A) == 0 || forall l :: A <= l <= Z ==> Starting(names, l) == [])
  {
    if NoCapital(names) {
      if Below(names, A) == 0 || forall l :: A <= l <= Z ==> Starting(names, l) == [] {
        forall l | A <= l <= Z ensures GetPackages(names, index, l) == Some(Starting(names, l)) {
          RightWhenNothingIsBefore(names, index, l);
        }
      } else {
        var l :| A <= l <= Z && Starting(names, l) != [];
        WrongWhenSomethingIsBefore(names, index, l);
        assert GetPackages(names, index, l) != Some(Starting(names, l));
      }
    } else {
      var i :| 0 <= i < |names| && 65 <= names[i][0] <= 90;
      var l := names[i][0] + 32;
      GroupLenIs(names, l);
      assert GetPackages(names, index, l) != Some(Starting(names, l));
    }
  }

  /** A name that starts with a digit pushes the others out of place: `b` gets it. */
  lemma DigitComesFirst(names: seq<Bytes>, index: seq<(nat, nat)>)
    requires names == [[49], [98]] && |index| == Z - A + 1 && Indexed(names, index)
    ensures GetPackages(names, index, 98) == Some([[49]]) && !IndexIsRight(names, index)
  {
    assert names[1..] == [[98]] && names[1..][1..] == [];
    assert GroupLen(names[1..], 98) == 1 && GroupLen(names[1..], 97) == 0;
    assert GroupLen(names, 98) == 1 && GroupLen(names, 97) == 0;
    assert GroupOffset(names, 97) == 0 && GroupOffset(names, 98) == 0;
    assert index[98 - A] == (GroupOffset(names, A + 1), GroupLen(names, A + 1));
    assert names[0..1] == [[49]];
    assert Starting(names, 98) == Starting(names[1..], 98) == [[98]];
  }
}
