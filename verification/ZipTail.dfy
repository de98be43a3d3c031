/** `zipBinarySize` (scripts/binary-size.ts): the size of the binary in a release zip, read from the
    last 64 KB of the archive, against the formats of sections 4.3.12 and 4.3.16 of the PKWARE
    APPNOTE. The two requests are answered as the server of an unchanged file would. */
module ZipTail {
  import opened LittleEndian

  datatype Result = Size(value: nat) | NoEndRecord | DirectoryNotInTail | NoFileEntry

  const END_SIGNATURE: nat := 0x06054b50
  const HEADER_SIGNATURE: nat := 0x02014b50

  // ----- The reader -----

  function Tail(file: Bytes): Bytes { if |file| <= 65536 then file else file[|file| - 65536..] }

  predicate EndsWithSlash(name: Bytes) { name != [] && name[|name| - 1] == 0x2F }

  /** The last place, from `i` down to `low`, where an end record could start. */
  function FindEnd(buf: Bytes, i: int, low: nat): (e: int)
    requires i + 22 <= |buf|
    ensures e >= 0 ==> low <= e <= i && U32(buf, e) == END_SIGNATURE
    ensures e >= 0 ==> forall k: nat :: e < k <= i ==> U32(buf, k) != END_SIGNATURE
    ensures e < 0 ==> e == -1 && forall k: nat :: low <= k <= i ==> U32(buf, k) != END_SIGNATURE
    decreases i
  {
    if i < low then -1
    else if U32(buf, i) == END_SIGNATURE then i
    else FindEnd(buf, i - 1, low)
  }

  function NameAt(buf: Bytes, p: nat): Bytes
    requires p + 46 <= |buf|
  {
    var end := p + 46 + U16(buf, p + 28);
    buf[p + 46..if end <= |buf| then end else |buf|]
  }

  function HeaderLen(buf: Bytes, p: nat): (n: nat)
    requires p + 46 <= |buf|
    ensures n >= 46
  {
    46 + U16(buf, p + 28) + U16(buf, p + 30) + U16(buf, p + 32)
  }

  /** The walk over the central directory, from header `p` on. */
  function Walk(buf: Bytes, p: nat, eocd: nat, size: nat): nat
    requires eocd <= |buf|
    decreases |buf| - p
  {
    if p + 46 <= eocd && U32(buf, p) == HEADER_SIGNATURE then
      Walk(buf, p + HeaderLen(buf, p), eocd, Larger(NameAt(buf, p), U32(buf, p + 24), size))
    else size
  }

  /** Directories do not count. */
  function Larger(name: Bytes, uncompressed: nat, size: nat): nat {
    if !EndsWithSlash(name) && uncompressed > size then uncompressed else size
  }

  function Low(buf: Bytes): nat { if |buf| - 22 - 65535 > 0 then |buf| - 22 - 65535 else 0 }

  /** What is read from the last bytes of a file, `skip` bytes in. */
  function ReadTail(buf: Bytes, skip: nat): Result {
    var eocd := FindEnd(buf, |buf| - 22, Low(buf));
    if eocd < 0 then NoEndRecord
    else
      var p := U32(buf, eocd + 16) - skip;
      if p < 0 then DirectoryNotInTail
      else
        var size := Walk(buf, p, eocd, 0);
        if size == 0 then NoFileEntry else Size(size)
  }

  function ReadSize(file: Bytes): Result { ReadTail(Tail(file), |file| - |Tail(file)|) }

  /** The scan for the end record. */
  method ScanForEnd(buf: Bytes) returns (eocd: int)
    ensures eocd == FindEnd(buf, |buf| - 22, Low(buf))
  {
    var i := |buf| - 22;
    while i >= Low(buf)
      invariant i <= |buf| - 22
      invariant FindEnd(buf, |buf| - 22, Low(buf)) == FindEnd(buf, i, Low(buf))
      decreases i
    {
      if U32(buf, i) == END_SIGNATURE {
        return i;
      }
      i := i - 1;
    }
    return -1;
  }

  /** The walk over the central directory. */
  method WalkDirectory(buf: Bytes, start: nat, eocd: nat) returns (size: nat)
    requires eocd <= |buf|
    ensures size == Walk(buf, start, eocd, 0)
  {
    var p: nat := start;
    size := 0;
    while p + 46 <= eocd && U32(buf, p) == HEADER_SIGNATURE
      invariant Walk(buf, start, eocd, 0) == Walk(buf, p, eocd, size)
      decreases |buf| - p
    {
      var uncompressed, name := U32(buf, p + 24), NameAt(buf, p);
      if !EndsWithSlash(name) && uncompressed > size { size := uncompressed; }
      p := p + HeaderLen(buf, p);
    }
  }

  method ZipBinarySize(file: Bytes) returns (r: Result)
    ensures r == ReadSize(file)
  {
    var total := |file|;
    var tail := if 65536 <= total then 65536 else total;
    var buf := file[total - tail..];
    assert buf == Tail(file);
    var eocd := ScanForEnd(buf);
    if eocd < 0 {
      return NoEndRecord;
    }
    var p: int := U32(buf, eocd + 16) - (total - tail);
    if p < 0 {
      return DirectoryNotInTail;
    }
    var size := WalkDirectory(buf, p, eocd);
    if size == 0 {
      return NoFileEntry;
    }
    return Size(size);
  }

  // ----- Archives -----

  /** A central directory file header: the fields the reader uses, and the bytes between them. */
  datatype Entry = Entry(size: nat, name: Bytes, extra: Bytes, comment: Bytes, before: Bytes, after: Bytes)

  predicate ValidEntry(e: Entry) {
    && e.size < 0x1_0000_0000
    && |e.name| < 0x10000 && |e.extra| < 0x10000 && |e.comment| < 0x10000
    && |e.before| == 20 && |e.after| == 12
  }

  function Lengths(e: Entry): (b: Bytes)
    requires ValidEntry(e)
    ensures |b| == 6
  {
    Bytes2(|e.name|) + Bytes2(|e.extra|) + Bytes2(|e.comment|)
  }

  /** Section 4.3.12, up to the file name. */
  function FixedPart(e: Entry): (b: Bytes)
    requires ValidEntry(e)
    ensures |b| == 46
  {
    Bytes4(HEADER_SIGNATURE) + e.before + Bytes4(e.size) + Lengths(e) + e.after
  }

  function Header(e: Entry): (b: Bytes)
    requires ValidEntry(e)
    ensures |b| == 46 + |e.name| + |e.extra| + |e.comment|
  {
    FixedPart(e) + e.name + e.extra + e.comment
  }

  function Directory(entries: seq<Entry>): Bytes
    requires forall i :: 0 <= i < |entries| ==> ValidEntry(entries[i])
  {
    if entries == [] then [] else Header(entries[0]) + Directory(entries[1..])
  }

  /** Section 4.3.16: disks and counts, the size of the directory, its offset, and a comment. */
  function EndRecord(counts: Bytes, offset: nat, comment: Bytes): (b: Bytes)
    requires |counts| == 12 && offset < 0x1_0000_0000 && |comment| < 0x10000
    ensures |b| == 22 + |comment|
  {
    Bytes4(END_SIGNATURE) + counts + Bytes4(offset) + Bytes2(|comment|) + comment
  }

  function Archive(data: Bytes, entries: seq<Entry>, counts: Bytes, comment: Bytes): Bytes
    requires |data| < 0x1_0000_0000 && |counts| == 12 && |comment| < 0x10000
    requires forall i :: 0 <= i < |entries| ==> ValidEntry(entries[i])
  {
    data + Directory(entries) + EndRecord(counts, |data|, comment)
  }

  /** Nothing in the record that the scan comes across first looks like the start of another one. */
  predicate NoLaterSignature(end: Bytes) {
    forall j :: 0 < j <= |end| - 22 ==> U32(end, j) != END_SIGNATURE
  }

  /** The largest size among the entries that are files. */
  function LargestFile(entries: seq<Entry>, size: nat): nat {
    if entries == [] then size
    else
      var e := entries[0];
      LargestFile(entries[1..], Larger(e.name, e.size, size))
  }

  /** That is the maximum over the files, and 0 if there is none. */
  lemma {:induction false} LargestFileIsMax(entries: seq<Entry>, size: nat)
    ensures var m := LargestFile(entries, size);
            && m >= size
            && (forall i :: 0 <= i < |entries| && !EndsWithSlash(entries[i].name) ==> entries[i].size <= m)
            && (m == size || exists i :: 0 <= i < |entries| && !EndsWithSlash(entries[i].name) && entries[i].size == m)
    decreases |entries|
  {
    if entries != [] {
      var e := entries[0];
      LargestFileIsMax(entries[1..], Larger(e.name, e.size, size));
      assert forall i :: 1 <= i < |entries| ==> entries[i] == entries[1..][i - 1];
    }
  }

  // ----- Reading what was written -----

  lemma FixedFields(e: Entry)
    requires ValidEntry(e)
    ensures var h := FixedPart(e);
            && U32(h, 0) == HEADER_SIGNATURE && U32(h, 24) == e.size
            && U16(h, 28) == |e.name| && U16(h, 30) == |e.extra| && U16(h, 32) == |e.comment|
  {
    var sig, size, h := Bytes4(HEADER_SIGNATURE), Bytes4(e.size), FixedPart(e);
    assert h == [] + sig + (e.before + size + Lengths(e) + e.after);
    U32In([], sig, e.before + size + Lengths(e) + e.after);
    assert h == (sig + e.before) + size + (Lengths(e) + e.after);
    U32In(sig + e.before, size, Lengths(e) + e.after);
    var pre := sig + e.before + size;
    var n, x, c := Bytes2(|e.name|), Bytes2(|e.extra|), Bytes2(|e.comment|);
    assert h == pre + n + (x + c + e.after);
    U16In(pre, n, x + c + e.after);
    assert h == (pre + n) + x + (c + e.after);
    U16In(pre + n, x, c + e.after);
    assert h == (pre + n + x) + c + e.after;
    U16In(pre + n + x, c, e.after);
  }

  /** One header, wherever it stands. */
  lemma HeaderInPlace(a: Bytes, e: Entry, rest: Bytes)
    requires ValidEntry(e)
    ensures var buf, p := a + Header(e) + rest, |a|;
            && U32(buf, p) == HEADER_SIGNATURE && U32(buf, p + 24) == e.size
            && NameAt(buf, p) == e.name && HeaderLen(buf, p) == |Header(e)|
  {
    hide FixedPart, U32, U16;
    var fixed, more := FixedPart(e), e.name + e.extra + e.comment + rest;
    var buf := a + Header(e) + rest;
    assert buf == a + fixed + more;
    FixedFields(e);
    InPlace(a, fixed, more, 0);
    InPlace(a, fixed, more, 24);
    InPlace(a, fixed, more, 28);
    InPlace(a, fixed, more, 30);
    InPlace(a, fixed, more, 32);
    NameInPlace(a, fixed, e.name, e.extra + e.comment + rest);
    assert buf == a + fixed + e.name + (e.extra + e.comment + rest);
  }

  lemma NameInPlace(a: Bytes, fixed: Bytes, name: Bytes, more: Bytes)
    ensures var buf, p := a + fixed + name + more, |a| + |fixed|; buf[p..p + |name|] == name
  {
  }

  lemma Regroup(a: Bytes, h: Bytes, d: Bytes, rest: Bytes)
    ensures a + (h + d) + rest == a + h + (d + rest)
    ensures a + (h + d) + rest == (a + h) + d + rest
    ensures |a + (h + d)| == |(a + h) + d|
  {
  }

  lemma WalkOne(a: Bytes, e: Entry, rest: Bytes, eocd: nat, size: nat)
    requires ValidEntry(e) && |a + Header(e)| <= eocd <= |a + Header(e) + rest|
    ensures var buf := a + Header(e) + rest;
            Walk(buf, |a|, eocd, size) == Walk(buf, |a + Header(e)|, eocd, Larger(e.name, e.size, size))
  {
    HeaderInPlace(a, e, rest);
  }

  lemma {:induction false} WalkAll(a: Bytes, entries: seq<Entry>, rest: Bytes, size: nat)
    requires forall i :: 0 <= i < |entries| ==> ValidEntry(entries[i])
    ensures Walk(a + Directory(entries) + rest, |a|, |a + Directory(entries)|, size) == LargestFile(entries, size)
    decreases |entries|
  {
    if entries == [] {
      assert a + Directory(entries) == a;
    } else {
      var e, d := entries[0], Directory(entries[1..]);
      Regroup(a, Header(e), d, rest);
      WalkOne(a, e, d + rest, |(a + Header(e)) + d|, size);
      WalkAll(a + Header(e), entries[1..], rest, Larger(e.name, e.size, size));
    }
  }

  lemma EndFields(counts: Bytes, offset: nat, comment: Bytes)
    requires |counts| == 12 && offset < 0x1_0000_0000 && |comment| < 0x10000
    ensures var r := EndRecord(counts, offset, comment); U32(r, 0) == END_SIGNATURE && U32(r, 16) == offset
  {
    var sig, off, z, r := Bytes4(END_SIGNATURE), Bytes4(offset), Bytes2(|comment|), EndRecord(counts, offset, comment);
    assert r == [] + sig + (counts + off + z + comment);
    U32In([], sig, counts + off + z + comment);
    assert r == (sig + counts) + off + (z + comment);
    U32In(sig + counts, off, z + comment);
  }

  /** The last place in a record where it looks like one. */
  predicate LastSignature(end: Bytes, j: int) {
    0 <= j <= |end| - 22 && U32(end, j) == END_SIGNATURE && forall l :: j < l <= |end| - 22 ==> U32(end, l) != END_SIGNATURE
  }

  /** In any case the scan stops at the last place that looks like a record. */
  lemma FindsLastSignature(front: Bytes, end: Bytes) returns (j: nat)
    requires 22 <= |end| <= 22 + 65535 && U32(end, 0) == END_SIGNATURE
    ensures var buf := front + end; LastSignature(end, j) && FindEnd(buf, |buf| - 22, Low(buf)) == |front| + j
  {
    hide U32;
    var buf := front + end;
    forall l | 0 <= l <= |end| - 22 ensures U32(buf, |front| + l) == U32(end, l) {
      assert front + end + [] == buf;
      InPlace(front, end, [], l);
    }
    assert U32(buf, |front| + 0) == U32(end, 0);
    FindsNoEarlier(buf, |buf| - 22, Low(buf), |front|);
    j := FindEnd(buf, |buf| - 22, Low(buf)) - |front|;
    assert U32(buf, |front| + j) == U32(end, j);
    forall l | j < l <= |end| - 22 ensures U32(end, l) != END_SIGNATURE {
      assert U32(buf, |front| + l) == U32(end, l);
    }
  }

  /** The scan goes from the end of the file to the start of the record. It stops there exactly if it does
      not come across the signature before. */
  lemma FindsEndIff(front: Bytes, end: Bytes)
    requires 22 <= |end| <= 22 + 65535 && U32(end, 0) == END_SIGNATURE
    ensures var buf := front + end;
            FindEnd(buf, |buf| - 22, Low(buf)) == |front| <==> NoLaterSignature(end)
  {
    var buf := front + end;
    forall j | 0 <= j <= |end| - 22 ensures U32(buf, |front| + j) == U32(end, j) {
      assert front + end + [] == buf;
      InPlace(front, end, [], j);
    }
    var e := FindEnd(buf, |buf| - 22, Low(buf));
    assert U32(buf, |front| + 0) == U32(end, 0);
    if NoLaterSignature(end) {
      forall l | |front| < l <= |buf| - 22 ensures U32(buf, l) != END_SIGNATURE {
        assert U32(buf, |front| + (l - |front|)) == U32(end, l - |front|);
      }
      FindsLast(buf, |buf| - 22, Low(buf), |front|);
    } else {
      var j :| 0 < j <= |end| - 22 && U32(end, j) == END_SIGNATURE;
      assert U32(buf, |front| + j) == END_SIGNATURE;
      FindsNoEarlier(buf, |buf| - 22, Low(buf), |front| + j);
    }
  }

  lemma {:induction false} FindsLast(buf: Bytes, i: int, low: nat, k: nat)
    requires i + 22 <= |buf| && low <= k <= i && U32(buf, k) == END_SIGNATURE
    requires forall l :: k < l <= i ==> U32(buf, l) != END_SIGNATURE
    ensures FindEnd(buf, i, low) == k
    decreases i
  {
    if i > k { FindsLast(buf, i - 1, low, k); }
  }

  lemma {:induction false} FindsNoEarlier(buf: Bytes, i: int, low: nat, k: nat)
    requires i + 22 <= |buf| && low <= k <= i && U32(buf, k) == END_SIGNATURE
    ensures FindEnd(buf, i, low) >= k
    decreases i
  {
    if i > k { FindsNoEarlier(buf, i - 1, low, k); }
  }

  /** What the reader makes of a record at a place. */
  function ReadFrom(buf: Bytes, skip: nat, eocd: nat): Result
    requires eocd + 22 <= |buf|
  {
    var p := U32(buf, eocd + 16) - skip;
    if p < 0 then DirectoryNotInTail
    else
      var size := Walk(buf, p, eocd, 0);
      if size == 0 then NoFileEntry else Size(size)
  }

  lemma ReadTailIs(buf: Bytes, skip: nat, eocd: nat)
    requires eocd + 22 <= |buf| && FindEnd(buf, |buf| - 22, Low(buf)) == eocd
    ensures ReadTail(buf, skip) == ReadFrom(buf, skip, eocd)
  {
  }

  /** The right answer for an archive: the size of the largest file, if there is one that is not empty and
      the directory starts in the part that was read; and which error it is otherwise. */
  function Answer(entries: seq<Entry>, comment: Bytes): Result
    requires forall i :: 0 <= i < |entries| ==> ValidEntry(entries[i])
  {
    if |Directory(entries)| + 22 + |comment| > 65536 then DirectoryNotInTail
    else if LargestFile(entries, 0) == 0 then NoFileEntry
    else Size(LargestFile(entries, 0))
  }

  /** On every archive whose end record is in the part that was read: the scan finds that record exactly if
      it does not come across the signature before, and then the answer is right. In any case the answer
      is what is read from the last place of the record that looks like one. */
  lemma ReadsArchives(data: Bytes, entries: seq<Entry>, counts: Bytes, comment: Bytes)
    requires |data| < 0x1_0000_0000 && |counts| == 12 && |comment| + 22 <= 65536
    requires forall i :: 0 <= i < |entries| ==> ValidEntry(entries[i])
    ensures var file, end := Archive(data, entries, counts, comment), EndRecord(counts, |data|, comment);
            var buf := Tail(file);
            && (FindEnd(buf, |buf| - 22, Low(buf)) == |buf| - |end| <==> NoLaterSignature(end))
            && (NoLaterSignature(end) ==> ReadSize(file) == Answer(entries, comment))
            && exists j :: LastSignature(end, j) && ReadSize(file) == ReadFrom(buf, |file| - |buf|, |buf| - |end| + j)
  {
    hide ReadTail, EndRecord, Directory, FindEnd, NoLaterSignature, ReadFrom, Answer, Tail, U32;
    var file, end := Archive(data, entries, counts, comment), EndRecord(counts, |data|, comment);
    var buf := Tail(file);
    EndFields(counts, |data|, comment);
    EndInTail(data + Directory(entries), end);
    FindsEndIff(buf[..|buf| - |end|], end);
    TailIsShorter(file);
    var j := FindsLastSignature(buf[..|buf| - |end|], end);
    ReadTailIs(buf, |file| - |buf|, |buf| - |end| + j);
    if NoLaterSignature(end) {
      AnswersFrom(data, entries, end, comment);
    }
  }

  lemma AnswersFrom(data: Bytes, entries: seq<Entry>, end: Bytes, comment: Bytes)
    requires |end| == 22 + |comment| <= 65536 && U32(end, 16) == |data|
    requires forall i :: 0 <= i < |entries| ==> ValidEntry(entries[i])
    ensures var file := data + Directory(entries) + end;
            var buf := Tail(file);
            |buf| >= |end| && ReadFrom(buf, |file| - |buf|, |buf| - |end|) == Answer(entries, comment)
  {
    hide ReadFrom, LargestFile, Directory, U32;
    var dir := Directory(entries);
    var file := data + dir + end;
    var buf, skip := Tail(file), |file| - |Tail(file)|;
    EndInTail(data + dir, end);
    if |data| >= skip {
      DirectoryInTail(data, dir, end, skip);
      ReadInTail(data[skip..], entries, end, skip);
    } else {
      ReadBeforeTail(buf, end, |data|, skip);
    }
  }

  /** On any file, in particular one with a comment so long that its record is not in the part that was read:
      there is no record exactly if the signature is at no place of the scan. */
  lemma NoEndRecordIff(file: Bytes)
    ensures ReadSize(file) == NoEndRecord <==>
              var buf := Tail(file);
              forall k: nat :: Low(buf) <= k <= |buf| - 22 ==> U32(buf, k) != END_SIGNATURE
  {
    hide U32, Walk;
  }

  lemma OffsetInPlace(front: Bytes, end: Bytes)
    requires |end| >= 22
    ensures U32(front + end, |front| + 16) == U32(end, 16)
  {
    assert front + end + [] == front + end;
    InPlace(front, end, [], 16);
  }

  lemma ReadBeforeTail(buf: Bytes, end: Bytes, offset: nat, skip: nat)
    requires 22 <= |end| <= |buf| && buf == buf[..|buf| - |end|] + end && U32(end, 16) == offset < skip
    ensures ReadFrom(buf, skip, |buf| - |end|) == DirectoryNotInTail
  {
    OffsetInPlace(buf[..|buf| - |end|], end);
  }

  lemma ReadInTail(a: Bytes, entries: seq<Entry>, end: Bytes, skip: nat)
    requires |end| >= 22 && U32(end, 16) == |a| + skip
    requires forall i :: 0 <= i < |entries| ==> ValidEntry(entries[i])
    ensures ReadFrom(a + Directory(entries) + end, skip, |a + Directory(entries)|)
            == if LargestFile(entries, 0) == 0 then NoFileEntry else Size(LargestFile(entries, 0))
  {
    hide Walk, LargestFile, Directory;
    OffsetInPlace(a + Directory(entries), end);
    WalkAll(a, entries, end, 0);
  }

  lemma EndInTail(front: Bytes, end: Bytes)
    requires |end| <= 65536
    ensures var buf := Tail(front + end); |buf| >= |end| && buf == buf[..|buf| - |end|] + end
  {
  }

  lemma DirectoryInTail(data: Bytes, dir: Bytes, end: Bytes, skip: nat)
    requires skip <= |data|
    ensures (data + dir + end)[skip..] == data[skip..] + dir + end
    ensures |data[skip..] + dir| == |(data + dir + end)[skip..]| - |end|
  {
  }

  /** A comment that is itself an end record misleads the scan: there is no file, whatever is in the
      archive. */
  lemma CommentMisleads(data: Bytes, entries: seq<Entry>, counts: Bytes)
    requires |counts| == 12 && forall i :: 0 <= i < |entries| ==> ValidEntry(entries[i])
    requires |data| + |Directory(entries)| + 44 < 0xffff_ffff
    ensures ReadSize(Archive(data, entries, counts, EndRecord(counts, 0xffff_ffff, []))) == NoFileEntry
  {
    hide EndRecord, Directory, FindEnd, Tail, ReadTail, ReadFrom, U32, NoLaterSignature;
    var fake := EndRecord(counts, 0xffff_ffff, []);
    var file := Archive(data, entries, counts, fake);
    var a, end := data + Directory(entries), EndRecord(counts, |data|, fake);
    EndFields(counts, 0xffff_ffff, []);
    FakeIsLast(counts, |data|, fake);
    LastPart(a, end, fake);
    FakeEnds(a + end[..22], fake);
  }

  lemma FakeEnds(front: Bytes, fake: Bytes)
    requires |fake| == 22 && U32(fake, 0) == END_SIGNATURE && U32(fake, 16) == 0xffff_ffff
    requires NoLaterSignature(fake) && |front| + 22 < 0xffff_ffff
    ensures ReadSize(front + fake) == NoFileEntry
  {
    hide FindEnd, U32, NoLaterSignature, ReadTail, Tail;
    var file := front + fake;
    var buf, skip := Tail(file), |file| - |Tail(file)|;
    EndInTail(front, fake);
    TailIsShorter(file);
    FindsEndIff(buf[..|buf| - 22], fake);
    ReadTailIs(buf, skip, |buf| - 22);
    OffsetInPlace(buf[..|buf| - 22], fake);
  }

  lemma TailIsShorter(file: Bytes)
    ensures |Tail(file)| <= |file|
  {
  }

  lemma FakeIsLast(counts: Bytes, offset: nat, fake: Bytes)
    requires |counts| == 12 && offset < 0x1_0000_0000 && |fake| == 22
    ensures var r := EndRecord(counts, offset, fake); r[22..] == fake && NoLaterSignature(fake)
  {
  }

  lemma LastPart(a: Bytes, r: Bytes, fake: Bytes)
    requires |r| >= 22 && r[22..] == fake
    ensures a + r == a + r[..22] + fake
  {
    assert r == r[..22] + r[22..];
  }

  // ----- Fixed bytes -----

  /** Which names are those of directories. */
  lemma DirectoryNames(name: Bytes)
    ensures EndsWithSlash(name) <==> exists front: Bytes :: InDirectory(name, front)
  {
    if EndsWithSlash(name) { assert InDirectory(name, name[..|name| - 1]); }
  }

  predicate InDirectory(name: Bytes, front: Bytes) { name == front + ['/' as int] }

  /** The signatures, as they stand in the file. */
  lemma Signatures()
    ensures Bytes4(END_SIGNATURE) == ['P' as int, 'K' as int, 5, 6]
    ensures Bytes4(HEADER_SIGNATURE) == ['P' as int, 'K' as int, 1, 2]
  {
  }
}
