/**
 The pak v5 container of pak.py: a header, an index of resource offsets closed by a sentinel,
 the aliases, and the resources.
 */
module Pak {
  import opened Options
  import opened Bytes

  datatype Entry = Entry(id: int, blob: Bytes)
  datatype Alias = Alias(id: int, index: int)
  datatype Pak = Pak(encoding: int, blobs: seq<Entry>, aliases: seq<Alias>)

  datatype Error = Truncated | BadVersion(version: nat) | DoesNotFit | NotGzip
  datatype Result<+T> = Ok(value: T) | Err(error: Error)

  const VERSION := 5
  const HEADER_SIZE := 12
  const U8 := 0x100
  const U16 := 0x1_0000
  const U32 := 0x1_0000_0000

  // ----- load -----

  // Python's d[a:b].
  function Slice(d: Bytes, a: nat, b: nat): Bytes {
    var lo, hi := if a < |d| then a else |d|, if b < |d| then b else |d|;
    if lo <= hi then d[lo..hi] else []
  }

  function Number(d: Bytes, at: nat, width: nat): nat
    requires at + width <= |d|
  {
    FromLittleEndian(d[at..at + width])
  }

  function IndexAt(i: nat): nat {
    HEADER_SIZE + i * 6
  }

  function AliasesAt(cnt: nat, i: nat): nat {
    IndexAt(cnt + 1) + i * 4
  }

  predicate IndexFits(d: Bytes, cnt: nat, nal: nat) {
    AliasesAt(cnt, nal) <= |d|
  }

  function EntryId(d: Bytes, i: nat): nat
    requires IndexAt(i + 1) <= |d|
  {
    Number(d, IndexAt(i), 2)
  }

  function EntryOffset(d: Bytes, i: nat): nat
    requires IndexAt(i + 1) <= |d|
  {
    Number(d, IndexAt(i) + 2, 4)
  }

  function EntryOf(d: Bytes, i: nat): Entry
    requires IndexAt(i + 2) <= |d|
  {
    Entry(EntryId(d, i), Slice(d, EntryOffset(d, i), EntryOffset(d, i + 1)))
  }

  function AliasOf(d: Bytes, cnt: nat, i: nat): Alias
    requires AliasesAt(cnt, i + 1) <= |d|
  {
    Alias(Number(d, AliasesAt(cnt, i), 2), Number(d, AliasesAt(cnt, i) + 2, 2))
  }

  function Load(d: Bytes): Result<Pak> {
    if |d| < 4 then Err(Truncated)
    else if Number(d, 0, 4) != VERSION then Err(BadVersion(Number(d, 0, 4)))
    else if |d| < HEADER_SIZE then Err(Truncated)
    else
      var cnt, nal := Number(d, 8, 2), Number(d, 10, 2);
      if !IndexFits(d, cnt, nal) then Err(Truncated)
      else
        Ok(Pak(d[4],
               seq(cnt, i requires 0 <= i < cnt => EntryOf(d, i)),
               seq(nal, i requires 0 <= i < nal => AliasOf(d, cnt, i))))
  }

  // ----- save -----

  function BlobBytes(blobs: seq<Entry>): Bytes {
    if blobs == [] then [] else BlobBytes(blobs[..|blobs| - 1]) + blobs[|blobs| - 1].blob
  }

  // Where the i-th resource goes.
  function Offset(p: Pak, i: nat): nat
    requires i <= |p.blobs|
  {
    AliasesAt(|p.blobs|, |p.aliases|) + |BlobBytes(p.blobs[..i])|
  }

  // Every field fits its width.
  predicate Fits(p: Pak) {
    && 0 <= p.encoding < U8 && |p.blobs| < U16 && |p.aliases| < U16
    && Offset(p, |p.blobs|) < U32
    && (forall i :: 0 <= i < |p.blobs| ==> 0 <= p.blobs[i].id < U16)
    && (forall i :: 0 <= i < |p.aliases| ==> 0 <= p.aliases[i].id < U16 && 0 <= p.aliases[i].index < U16)
  }

  // A field of `width` bytes; zeroes stand for a number that does not fit.
  function Field(n: int, width: nat): (r: Bytes)
    ensures |r| == width
  {
    if 0 <= n < Pow256(width) then LittleEndian(n, width) else seq(width, _ => 0)
  }

  function HeaderBytes(p: Pak): (r: Bytes)
    ensures |r| == HEADER_SIZE
  {
    Field(VERSION, 4) + Field(p.encoding, 1) + [0, 0, 0] + Field(|p.blobs|, 2) + Field(|p.aliases|, 2)
  }

  function IndexEntry(id: int, offset: nat): (r: Bytes)
    ensures |r| == 6
  {
    Field(id, 2) + Field(offset, 4)
  }

  function IndexBytes(p: Pak, n: nat): (r: Bytes)
    requires n <= |p.blobs|
    ensures |r| == n * 6
  {
    if n == 0 then [] else IndexBytes(p, n - 1) + IndexEntry(p.blobs[n - 1].id, Offset(p, n - 1))
  }

  function AliasEntry(a: Alias): (r: Bytes)
    ensures |r| == 4
  {
    Field(a.id, 2) + Field(a.index, 2)
  }

  function AliasBytes(aliases: seq<Alias>, n: nat): (r: Bytes)
    requires n <= |aliases|
    ensures |r| == n * 4
  {
    if n == 0 then [] else AliasBytes(aliases, n - 1) + AliasEntry(aliases[n - 1])
  }

  // The file of a container whose fields fit.
  function Image(p: Pak): Bytes {
    var n := |p.blobs|;
    HeaderBytes(p) + IndexBytes(p, n) + IndexEntry(0, Offset(p, n)) + AliasBytes(p.aliases, |p.aliases|)
      + BlobBytes(p.blobs)
  }

  lemma {:induction false} BlobBytesGrow(blobs: seq<Entry>, i: nat)
    requires i < |blobs|
    ensures BlobBytes(blobs[..i + 1]) == BlobBytes(blobs[..i]) + blobs[i].blob
  {
    var front := blobs[..i + 1];
    assert front[..|front| - 1] == blobs[..i] && front[|front| - 1] == blobs[i];
  }

  predicate EntryFits(p: Pak, i: nat)
    requires i < |p.blobs|
  {
    0 <= p.blobs[i].id < U16 && Offset(p, i) < U32
  }

  predicate AliasFits(a: Alias) {
    0 <= a.id < U16 && 0 <= a.index < U16
  }

  lemma {:induction false} OffsetsGrow(p: Pak, i: nat, j: nat)
    requires i <= j <= |p.blobs|
    ensures Offset(p, i) <= Offset(p, j)
  {
    hide BlobBytes;
    if i < j {
      OffsetsGrow(p, i, j - 1);
      BlobBytesGrow(p.blobs, j - 1);
    }
  }

  // The loop of save: every field is packed in turn, and the first that does not fit stops it.
  method Save(p: Pak) returns (r: Result<Bytes>)
    ensures r == if Fits(p) then Ok(Image(p)) else Err(DoesNotFit)
  {
    hide BlobBytes, Field, HeaderBytes;
    Widths();
    var n, m := |p.blobs|, |p.aliases|;
    if !(0 <= p.encoding < U8) || n >= U16 || m >= U16 {
      return Err(DoesNotFit);
    }
    var hdr := HeaderBytes(p);
    var off := |hdr| + (n + 1) * 6 + m * 4;
    var idx: Bytes := [];
    assert p.blobs[..0] == [] && BlobBytes([]) == [] by { EmptyBlobs(); }
    for i := 0 to n
      invariant off == Offset(p, i)
      invariant idx == IndexBytes(p, i)
      invariant forall k :: 0 <= k < i ==> EntryFits(p, k)
    {
      if !(0 <= p.blobs[i].id < U16) || off >= U32 {
        OffsetsGrow(p, i, n);
        return Err(DoesNotFit);
      }
      idx := idx + IndexEntry(p.blobs[i].id, off);
      BlobBytesGrow(p.blobs, i);
      off := off + |p.blobs[i].blob|;
    }
    if off >= U32 {
      return Err(DoesNotFit);
    }
    idx := idx + IndexEntry(0, off);
    var al: Bytes := [];
    for i := 0 to m
      invariant al == AliasBytes(p.aliases, i)
      invariant forall k :: 0 <= k < i ==> AliasFits(p.aliases[k])
    {
      if !AliasFits(p.aliases[i]) {
        return Err(DoesNotFit);
      }
      al := al + AliasEntry(p.aliases[i]);
    }
    assert Fits(p) by {
      assert Offset(p, n) < U32;
      forall k | 0 <= k < n ensures 0 <= p.blobs[k].id < U16 {
        assert EntryFits(p, k);
      }
      forall k | 0 <= k < m ensures 0 <= p.aliases[k].id < U16 && 0 <= p.aliases[k].index < U16 {
        assert AliasFits(p.aliases[k]);
      }
    }
    assert hdr + (IndexBytes(p, n) + IndexEntry(0, off)) == hdr + IndexBytes(p, n) + IndexEntry(0, off);
    r := Ok(hdr + idx + al + BlobBytes(p.blobs));
  }

  lemma EmptyBlobs()
    ensures BlobBytes([]) == []
  {
  }

  // ----- load after save -----

  lemma FieldReadsBack(n: int, width: nat)
    requires 0 <= n < Pow256(width)
    ensures FromLittleEndian(Field(n, width)) == n
  {
    LittleEndianReadsBack(n, width);
  }

  // A part of a concatenation, cut out again.
  lemma Middle(a: Bytes, b: Bytes, c: Bytes, d: Bytes)
    requires d == a + b + c
    ensures d[|a|..|a| + |b|] == b
  {
  }

  lemma SliceOfSlice(d: Bytes, a: nat, b: nat, x: nat, y: nat)
    requires a <= b <= |d| && x <= y <= b - a
    ensures d[a..b][x..y] == d[a + x..a + y]
  {
    var e := d[a..b];
    assert forall k :: x <= k < y ==> e[k] == d[a + k];
    assert |e[x..y]| == |d[a + x..a + y]|;
    assert forall k :: 0 <= k < y - x ==> e[x..y][k] == d[a + x..a + y][k];
  }

  // Numbers do not change when the text around them does.
  lemma NumberInside(d: Bytes, e: Bytes, shift: nat, at: nat, width: nat)
    requires at + width <= |e| && shift + |e| <= |d| && d[shift..shift + |e|] == e
    ensures Number(d, shift + at, width) == Number(e, at, width)
  {
    SliceOfSlice(d, shift, shift + |e|, at, at + width);
  }

  lemma {:induction false} IndexEntryAt(p: Pak, n: nat, i: nat)
    requires i < n <= |p.blobs|
    ensures IndexBytes(p, n)[i * 6..i * 6 + 6] == IndexEntry(p.blobs[i].id, Offset(p, i))
  {
    hide IndexEntry, Offset;
    if i < n - 1 {
      IndexEntryAt(p, n - 1, i);
      assert IndexBytes(p, n)[i * 6..i * 6 + 6] == IndexBytes(p, n - 1)[i * 6..i * 6 + 6];
    }
  }

  lemma {:induction false} AliasEntryAt(aliases: seq<Alias>, n: nat, i: nat)
    requires i < n <= |aliases|
    ensures AliasBytes(aliases, n)[i * 4..i * 4 + 4] == AliasEntry(aliases[i])
  {
    hide AliasEntry;
    if i < n - 1 {
      AliasEntryAt(aliases, n - 1, i);
      assert AliasBytes(aliases, n)[i * 4..i * 4 + 4] == AliasBytes(aliases, n - 1)[i * 4..i * 4 + 4];
    }
  }

  // Where the parts of the image lie.
  lemma ImageParts(p: Pak)
    ensures var n, m := |p.blobs|, |p.aliases|;
            var d := Image(p);
            && |d| == Offset(p, n) && AliasesAt(n, m) + |BlobBytes(p.blobs)| == |d|
            && d[..HEADER_SIZE] == HeaderBytes(p)
            && d[HEADER_SIZE..IndexAt(n)] == IndexBytes(p, n)
            && d[IndexAt(n)..IndexAt(n + 1)] == IndexEntry(0, Offset(p, n))
            && d[AliasesAt(n, 0)..AliasesAt(n, m)] == AliasBytes(p.aliases, m)
            && d[AliasesAt(n, m)..] == BlobBytes(p.blobs)
  {
    hide HeaderBytes, IndexBytes, IndexEntry, AliasBytes, BlobBytes;
    var n := |p.blobs|;
    assert p.blobs[..n] == p.blobs;
    FiveParts(HeaderBytes(p), IndexBytes(p, n), IndexEntry(0, Offset(p, n)), AliasBytes(p.aliases, |p.aliases|),
      BlobBytes(p.blobs));
  }

  lemma FiveParts(h: Bytes, i: Bytes, s: Bytes, a: Bytes, b: Bytes)
    ensures var d := h + i + s + a + b;
            var x, y, z := |h| + |i|, |h| + |i| + |s|, |h| + |i| + |s| + |a|;
            d[..|h|] == h && d[|h|..x] == i && d[x..y] == s && d[y..z] == a && d[z..] == b && |d| == z + |b|
  {
    var d := h + i + s + a + b;
    FrontOf(h + i + s + a, b);
    FrontOf(h + i + s, a);
    FrontOf(h + i, s);
    FrontOf(h, i);
    var front := h + i + s + a;
    assert d[..|front|] == front;
    SliceOfSlice(d, 0, |front|, 0, |h|);
    SliceOfSlice(d, 0, |front|, |h|, |h + i|);
    SliceOfSlice(d, 0, |front|, |h + i|, |h + i + s|);
    Middle([], h, i + s + a, front);
  }

  lemma FrontOf(a: Bytes, b: Bytes)
    ensures (a + b)[..|a|] == a && (a + b)[|a|..] == b
  {
  }

  lemma HeaderReads(p: Pak, d: Bytes)
    requires Fits(p) && |d| >= HEADER_SIZE && d[..HEADER_SIZE] == HeaderBytes(p)
    ensures Number(d, 0, 4) == VERSION && d[4] == p.encoding
    ensures d[5] == d[6] == d[7] == 0
    ensures Number(d, 8, 2) == |p.blobs| && Number(d, 10, 2) == |p.aliases|
  {
    hide Field, FromLittleEndian, Offset;
    Widths();
    var v, e, z, b, a := Field(VERSION, 4), Field(p.encoding, 1), [0, 0, 0], Field(|p.blobs|, 2), Field(|p.aliases|, 2);
    var h := d[..HEADER_SIZE];
    assert h == v + e + z + b + a;
    assert d[0..4] == v && d[4] == e[0] && d[5..8] == z && d[8..10] == b && d[10..12] == a;
    assert d[5] == z[0] && d[6] == z[1] && d[7] == z[2];
    FieldReadsBack(VERSION, 4);
    FieldReadsBack(|p.blobs|, 2);
    FieldReadsBack(|p.aliases|, 2);
    OneByte(p.encoding);
  }

  lemma OneByte(n: int)
    requires 0 <= n < U8
    ensures Field(n, 1)[0] == n
  {
    Widths();
    assert LittleEndian(n, 1) == [n % 256] + LittleEndian(n / 256, 0);
  }

  lemma EntryReads(d: Bytes, i: nat, id: int, offset: nat)
    requires IndexAt(i + 1) <= |d| && 0 <= id < U16 && offset < U32
    requires d[IndexAt(i)..IndexAt(i + 1)] == IndexEntry(id, offset)
    ensures EntryId(d, i) == id && EntryOffset(d, i) == offset
  {
    hide Field, FromLittleEndian;
    Widths();
    var e := IndexEntry(id, offset);
    NumberInside(d, e, IndexAt(i), 0, 2);
    NumberInside(d, e, IndexAt(i), 2, 4);
    assert e[0..2] == Field(id, 2) && e[2..6] == Field(offset, 4);
    FieldReadsBack(id, 2);
    FieldReadsBack(offset, 4);
  }

  lemma AliasReads(d: Bytes, cnt: nat, i: nat, a: Alias)
    requires AliasesAt(cnt, i + 1) <= |d| && AliasFits(a)
    requires d[AliasesAt(cnt, i)..AliasesAt(cnt, i + 1)] == AliasEntry(a)
    ensures AliasOf(d, cnt, i) == a
  {
    hide Field, FromLittleEndian;
    Widths();
    var e := AliasEntry(a);
    NumberInside(d, e, AliasesAt(cnt, i), 0, 2);
    NumberInside(d, e, AliasesAt(cnt, i), 2, 2);
    assert e[0..2] == Field(a.id, 2) && e[2..4] == Field(a.index, 2);
    FieldReadsBack(a.id, 2);
    FieldReadsBack(a.index, 2);
  }

  // The i-th index entry of an image; the last one is the sentinel.
  function IndexId(p: Pak, i: nat): int
    requires i <= |p.blobs|
  {
    if i < |p.blobs| then p.blobs[i].id else 0
  }

  lemma ImageIndex(p: Pak, i: nat)
    requires Fits(p) && i <= |p.blobs|
    ensures IndexAt(i + 1) <= |Image(p)|
    ensures EntryId(Image(p), i) == IndexId(p, i) && EntryOffset(Image(p), i) == Offset(p, i)
  {
    hide HeaderBytes, IndexBytes, IndexEntry, AliasBytes, BlobBytes, Image, EntryId, EntryOffset;
    var n := |p.blobs|;
    var d := Image(p);
    ImageParts(p);
    OffsetsGrow(p, i, n);
    if i < n {
      IndexEntryAt(p, n, i);
      SliceOfSlice(d, HEADER_SIZE, IndexAt(n), i * 6, i * 6 + 6);
    }
    EntryReads(d, i, IndexId(p, i), Offset(p, i));
  }

  lemma ImageBlob(p: Pak, i: nat)
    requires i < |p.blobs|
    ensures Slice(Image(p), Offset(p, i), Offset(p, i + 1)) == p.blobs[i].blob
  {
    hide HeaderBytes, IndexBytes, IndexEntry, AliasBytes, BlobBytes, Image;
    var n := |p.blobs|;
    ImageParts(p);
    OffsetsGrow(p, i, i + 1);
    OffsetsGrow(p, i + 1, n);
    BlobBytesGrow(p.blobs, i);
    BlobsArePrefixes(p.blobs, i + 1);
    var start := AliasesAt(n, |p.aliases|);
    var all, front := BlobBytes(p.blobs), BlobBytes(p.blobs[..i]);
    assert Image(p)[start..] == all;
    assert Slice(Image(p), Offset(p, i), Offset(p, i + 1)) == all[|front|..|front| + |p.blobs[i].blob|];
  }

  lemma {:induction false} BlobsArePrefixes(blobs: seq<Entry>, i: nat)
    requires i <= |blobs|
    ensures BlobBytes(blobs[..i]) <= BlobBytes(blobs)
    decreases |blobs| - i
  {
    hide BlobBytes;
    if i < |blobs| {
      BlobBytesGrow(blobs, i);
      BlobsArePrefixes(blobs, i + 1);
    } else {
      assert blobs[..i] == blobs;
    }
  }

  lemma ImageAlias(p: Pak, i: nat)
    requires Fits(p) && i < |p.aliases|
    ensures AliasesAt(|p.blobs|, i + 1) <= |Image(p)| && AliasOf(Image(p), |p.blobs|, i) == p.aliases[i]
  {
    hide HeaderBytes, IndexBytes, IndexEntry, AliasBytes, BlobBytes, Image, AliasOf;
    var n, m := |p.blobs|, |p.aliases|;
    var d := Image(p);
    ImageParts(p);
    AliasEntryAt(p.aliases, m, i);
    SliceOfSlice(d, AliasesAt(n, 0), AliasesAt(n, m), i * 4, i * 4 + 4);
    AliasReads(d, n, i, p.aliases[i]);
  }

  // ----- the file, byte by byte -----

  function Two(d: Bytes, at: nat): nat
    requires at + 2 <= |d|
  {
    var low: int, high: int := d[at], d[at + 1];
    low + 0x100 * high
  }

  function Four(d: Bytes, at: nat): nat
    requires at + 4 <= |d|
  {
    Two(d, at) + 0x1_0000 * Two(d, at + 2)
  }

  lemma TwoBytes(d: Bytes, at: nat)
    requires at + 2 <= |d|
    ensures Number(d, at, 2) == Two(d, at)
  {
    var s := d[at..at + 2];
    assert s[1..] == [d[at + 1]] && s[1..][1..] == [];
    assert FromLittleEndian([]) == 0;
    assert FromLittleEndian(s[1..]) == d[at + 1] + 256 * 0;
  }

  lemma FourBytes(d: Bytes, at: nat)
    requires at + 4 <= |d|
    ensures Number(d, at, 4) == Four(d, at)
  {
    hide FromLittleEndian;
    TwoBytes(d, at + 2);
    var s := d[at..at + 4];
    assert s[1..][1..] == d[at + 2..at + 4];
    TwoMore(s);
  }

  lemma TwoMore(s: Bytes)
    requires |s| >= 2
    ensures FromLittleEndian(s) == s[0] + 0x100 * s[1] + 0x1_0000 * FromLittleEndian(s[1..][1..])
  {
    assert s[1..][0] == s[1];
    assert FromLittleEndian(s[1..]) == s[1] + 256 * FromLittleEndian(s[1..][1..]);
  }

  // Version, encoding, padding, and the two counts.
  predicate HeaderStands(p: Pak, d: Bytes) {
    && |d| >= 12 && Four(d, 0) == 5 && d[4] == p.encoding && d[5] == d[6] == d[7] == 0
    && Two(d, 8) == |p.blobs| && Two(d, 10) == |p.aliases|
  }

  // 6 bytes for each resource and the sentinel: its id, and where it starts.
  predicate EntryStands(p: Pak, d: Bytes, i: nat)
    requires i <= |p.blobs|
  {
    var at := 12 + 6 * i;
    at + 6 <= |d| && Two(d, at) == IndexId(p, i) && Four(d, at + 2) == Offset(p, i)
  }

  // Then 4 bytes for each alias.
  predicate AliasStands(p: Pak, d: Bytes, i: nat)
    requires i < |p.aliases|
  {
    var at := 12 + 6 * (|p.blobs| + 1) + 4 * i;
    at + 4 <= |d| && Two(d, at) == p.aliases[i].id && Two(d, at + 2) == p.aliases[i].index
  }

  // Then the resources, one behind the other.
  predicate BlobStands(p: Pak, d: Bytes, i: nat)
    requires i < |p.blobs|
  {
    && Offset(p, i + 1) == Offset(p, i) + |p.blobs[i].blob| <= |d|
    && d[Offset(p, i)..Offset(p, i + 1)] == p.blobs[i].blob
  }

  lemma FileByPosition(p: Pak)
    requires Fits(p)
    ensures var d, n, m := Image(p), |p.blobs|, |p.aliases|;
            && HeaderStands(p, d)
            && Offset(p, 0) == 12 + 6 * (n + 1) + 4 * m && |d| == Offset(p, n)
            && (forall i: nat :: i <= n ==> EntryStands(p, d, i))
            && (forall i: nat :: i < m ==> AliasStands(p, d, i))
            && (forall i: nat :: i < n ==> BlobStands(p, d, i))
  {
    hide HeaderBytes, IndexBytes, IndexEntry, AliasBytes, BlobBytes, Image, EntryStands, AliasStands, BlobStands,
         HeaderStands;
    ImageParts(p);
    HeaderAt(p);
    EmptyBlobs();
    assert p.blobs[..0] == [];
    forall i: nat | i <= |p.blobs| ensures EntryStands(p, Image(p), i) {
      EntryAt(p, i);
    }
    forall i: nat | i < |p.aliases| ensures AliasStands(p, Image(p), i) {
      AliasAt(p, i);
    }
    forall i: nat | i < |p.blobs| ensures BlobStands(p, Image(p), i) {
      BlobAt(p, i);
    }
  }

  lemma HeaderAt(p: Pak)
    requires Fits(p)
    ensures HeaderStands(p, Image(p))
  {
    hide HeaderBytes, IndexBytes, IndexEntry, AliasBytes, BlobBytes, Image, Number, FromLittleEndian, Fits;
    var d := Image(p);
    ImageParts(p);
    HeaderReads(p, d);
    FourBytes(d, 0);
    TwoBytes(d, 8);
    TwoBytes(d, 10);
  }

  lemma EntryAt(p: Pak, i: nat)
    requires Fits(p) && i <= |p.blobs|
    ensures EntryStands(p, Image(p), i)
  {
    hide HeaderBytes, IndexBytes, IndexEntry, AliasBytes, BlobBytes, Image, Number, FromLittleEndian, Fits, Offset;
    ImageIndex(p, i);
    TwoBytes(Image(p), IndexAt(i));
    FourBytes(Image(p), IndexAt(i) + 2);
  }

  lemma AliasAt(p: Pak, i: nat)
    requires Fits(p) && i < |p.aliases|
    ensures AliasStands(p, Image(p), i)
  {
    hide HeaderBytes, IndexBytes, IndexEntry, AliasBytes, BlobBytes, Image, Number, FromLittleEndian, Fits, Offset;
    ImageAlias(p, i);
    TwoBytes(Image(p), AliasesAt(|p.blobs|, i));
    TwoBytes(Image(p), AliasesAt(|p.blobs|, i) + 2);
  }

  lemma BlobAt(p: Pak, i: nat)
    requires Fits(p) && i < |p.blobs|
    ensures BlobStands(p, Image(p), i)
  {
    hide HeaderBytes, IndexBytes, IndexEntry, AliasBytes, BlobBytes, Image, Fits;
    BlobBytesGrow(p.blobs, i);
    ImageBlob(p, i);
    ImageParts(p);
    OffsetsGrow(p, i + 1, |p.blobs|);
  }

  // What fits is read back as it was.
  lemma LoadAfterSave(p: Pak)
    requires Fits(p)
    ensures Load(Image(p)) == Ok(p)
  {
    hide HeaderBytes, IndexBytes, IndexEntry, AliasBytes, BlobBytes, Image, EntryId, EntryOffset, Slice, AliasOf,
         Number;
    var n, m := |p.blobs|, |p.aliases|;
    var d := Image(p);
    ImageParts(p);
    HeaderReads(p, d);
    forall i | 0 <= i < n ensures EntryOf(d, i) == p.blobs[i] {
      ImageIndex(p, i);
      ImageIndex(p, i + 1);
      ImageBlob(p, i);
    }
    forall i | 0 <= i < m ensures AliasOf(d, n, i) == p.aliases[i] {
      ImageAlias(p, i);
    }
    assert seq(n, i requires 0 <= i < n => EntryOf(d, i)) == p.blobs;
    assert seq(m, i requires 0 <= i < m => AliasOf(d, n, i)) == p.aliases;
    assert |d| >= HEADER_SIZE && IndexFits(d, n, m);
  }

  // ----- save after load -----

  function Count(d: Bytes): nat
    requires |d| >= HEADER_SIZE
  {
    Number(d, 8, 2)
  }

  function Aliases(d: Bytes): nat
    requires |d| >= HEADER_SIZE
  {
    Number(d, 10, 2)
  }

  // The whole index is there.
  predicate HasIndex(d: Bytes) {
    |d| >= HEADER_SIZE && Number(d, 0, 4) == VERSION && IndexFits(d, Count(d), Aliases(d))
  }

  predicate Monotone(d: Bytes, n: nat)
    requires IndexAt(n + 1) <= |d|
  {
    forall i {:trigger EntryOffset(d, i)} :: 0 <= i < n ==> EntryOffset(d, i) <= EntryOffset(d, i + 1)
  }

  // Zero padding, offsets that start behind the aliases, never step back and end at the end, and a zero sentinel id.
  predicate WellFormed(d: Bytes) {
    && HasIndex(d) && d[5] == d[6] == d[7] == 0
    && var n := Count(d);
       && EntryOffset(d, 0) == AliasesAt(n, Aliases(d)) && Monotone(d, n)
       && EntryOffset(d, n) == |d| && EntryId(d, n) == 0
  }

  lemma LoadsIfIndexed(d: Bytes)
    ensures Load(d).Ok? <==> HasIndex(d)
    ensures HasIndex(d) ==>
              var p := Load(d).value;
              && p.encoding == d[4] && |p.blobs| == Count(d) && |p.aliases| == Aliases(d)
              && (forall i :: 0 <= i < Count(d) ==> p.blobs[i] == EntryOf(d, i))
              && (forall i :: 0 <= i < Aliases(d) ==> p.aliases[i] == AliasOf(d, Count(d), i))
  {
    hide Number, EntryOf, AliasOf;
  }

  lemma NumberWritesBack(d: Bytes, at: nat, width: nat)
    requires at + width <= |d|
    ensures Number(d, at, width) < Pow256(width) && Field(Number(d, at, width), width) == d[at..at + width]
  {
    LittleEndianWritesBack(d[at..at + width]);
  }

  lemma {:induction false} OffsetsStayInside(d: Bytes, i: nat, n: nat)
    requires IndexAt(n + 1) <= |d| && i <= n && Monotone(d, n)
    ensures EntryOffset(d, i) <= EntryOffset(d, n)
    decreases n - i
  {
    hide EntryOffset;
    if i < n {
      OffsetsStayInside(d, i + 1, n);
      assert EntryOffset(d, i) <= EntryOffset(d, i + 1);
    }
  }

  lemma {:induction false} OffsetsStart(d: Bytes, i: nat, n: nat)
    requires IndexAt(n + 1) <= |d| && i <= n && Monotone(d, n)
    ensures EntryOffset(d, 0) <= EntryOffset(d, i)
  {
    hide EntryOffset;
    if i > 0 {
      OffsetsStart(d, i - 1, n);
      assert EntryOffset(d, i - 1) <= EntryOffset(d, i - 1 + 1);
    }
  }

  // The loaded resources, put together again, are the rest of the file.
  lemma {:induction false} BlobsOfFile(d: Bytes, p: Pak, i: nat)
    requires WellFormed(d) && Load(d) == Ok(p) && i <= |p.blobs|
    requires |p.blobs| == Count(d) && |p.aliases| == Aliases(d)
    ensures EntryOffset(d, 0) <= EntryOffset(d, i) <= |d|
    ensures BlobBytes(p.blobs[..i]) == d[EntryOffset(d, 0)..EntryOffset(d, i)]
    ensures Offset(p, i) == EntryOffset(d, i)
  {
    hide EntryOffset, EntryId, Number, Load, BlobBytes;
    var n := Count(d);
    OffsetsStayInside(d, i, n);
    OffsetsStart(d, i, n);
    if i == 0 {
      assert p.blobs[..0] == [];
      EmptyBlobs();
    } else {
      BlobsOfFile(d, p, i - 1);
      LoadsIfIndexed(d);
      BlobBytesGrow(p.blobs, i - 1);
      var a, b, c := EntryOffset(d, 0), EntryOffset(d, i - 1), EntryOffset(d, i);
      assert b <= EntryOffset(d, i - 1 + 1);
      assert p.blobs[i - 1].blob == d[b..c];
      assert d[a..b] + d[b..c] == d[a..c];
    }
  }

  lemma {:induction false} IndexOfFile(d: Bytes, p: Pak, i: nat)
    requires WellFormed(d) && Load(d) == Ok(p) && i <= |p.blobs|
    requires |p.blobs| == Count(d) && |p.aliases| == Aliases(d)
    ensures IndexBytes(p, i) == d[HEADER_SIZE..IndexAt(i)]
  {
    hide Number, Load, Field, BlobBytes, Offset, WellFormed, EntryOffset;
    WellFormedMeans(d);
    if i > 0 {
      IndexOfFile(d, p, i - 1);
      LoadsIfIndexed(d);
      BlobsOfFile(d, p, i - 1);
      EntryWritesBack(d, i - 1);
      assert d[HEADER_SIZE..IndexAt(i - 1)] + d[IndexAt(i - 1)..IndexAt(i)] == d[HEADER_SIZE..IndexAt(i)];
    }
  }

  lemma WellFormedMeans(d: Bytes)
    requires WellFormed(d)
    ensures HasIndex(d) && IndexFits(d, Count(d), Aliases(d))
  {
  }

  lemma EntryWritesBack(d: Bytes, i: nat)
    requires IndexAt(i + 1) <= |d|
    ensures IndexEntry(EntryId(d, i), EntryOffset(d, i)) == d[IndexAt(i)..IndexAt(i + 1)]
    ensures EntryId(d, i) < U16 && EntryOffset(d, i) < U32
  {
    hide Field, Number;
    Widths();
    NumberWritesBack(d, IndexAt(i), 2);
    NumberWritesBack(d, IndexAt(i) + 2, 4);
    var at := IndexAt(i);
    assert d[at..at + 2] + d[at + 2..at + 6] == d[at..at + 6];
  }

  lemma {:induction false} AliasesOfFile(d: Bytes, p: Pak, i: nat)
    requires HasIndex(d) && Load(d) == Ok(p) && i <= |p.aliases| && |p.aliases| == Aliases(d)
    ensures AliasBytes(p.aliases, i) == d[AliasesAt(Count(d), 0)..AliasesAt(Count(d), i)]
    ensures forall k :: 0 <= k < i ==> AliasFits(p.aliases[k])
  {
    hide Number, Load, Field;
    var n := Count(d);
    if i > 0 {
      AliasesOfFile(d, p, i - 1);
      LoadsIfIndexed(d);
      AliasWritesBack(d, n, i - 1);
      assert d[AliasesAt(n, 0)..AliasesAt(n, i - 1)] + d[AliasesAt(n, i - 1)..AliasesAt(n, i)]
             == d[AliasesAt(n, 0)..AliasesAt(n, i)];
    }
  }

  lemma AliasWritesBack(d: Bytes, n: nat, i: nat)
    requires AliasesAt(n, i + 1) <= |d|
    ensures AliasEntry(AliasOf(d, n, i)) == d[AliasesAt(n, i)..AliasesAt(n, i + 1)] && AliasFits(AliasOf(d, n, i))
  {
    hide Field, Number;
    Widths();
    var at := AliasesAt(n, i);
    NumberWritesBack(d, at, 2);
    NumberWritesBack(d, at + 2, 2);
    assert d[at..at + 2] + d[at + 2..at + 4] == d[at..at + 4];
  }

  lemma HeaderWritesBack(d: Bytes, p: Pak)
    requires HasIndex(d) && d[5] == d[6] == d[7] == 0
    requires p.encoding == d[4] && |p.blobs| == Count(d) && |p.aliases| == Aliases(d)
    ensures HeaderBytes(p) == d[..HEADER_SIZE] && |p.blobs| < U16 && |p.aliases| < U16
  {
    hide Field, Number, IndexFits;
    Widths();
    NumberWritesBack(d, 0, 4);
    NumberWritesBack(d, 8, 2);
    NumberWritesBack(d, 10, 2);
    OneByteField(d[4]);
    assert d[..HEADER_SIZE] == d[0..4] + [d[4]] + [d[5], d[6], d[7]] + d[8..10] + d[10..12];
  }

  lemma OneByteField(b: Byte)
    ensures Field(b, 1) == [b]
  {
    OneByte(b);
  }

  lemma SaveAfterLoad(d: Bytes)
    requires WellFormed(d)
    ensures Load(d).Ok? && Fits(Load(d).value) && Image(Load(d).value) == d
  {
    hide Number, Load, Field, BlobBytes, HeaderBytes, IndexBytes, IndexEntry, AliasBytes, EntryId, EntryOffset;
    LoadsIfIndexed(d);
    var p := Load(d).value;
    var n, m := |p.blobs|, |p.aliases|;
    HeaderWritesBack(d, p);
    IndexOfFile(d, p, n);
    BlobsOfFile(d, p, n);
    AliasesOfFile(d, p, m);
    EntryWritesBack(d, n);
    assert p.blobs[..n] == p.blobs;
    var i0, i1, a0, a1 := HEADER_SIZE, IndexAt(n), AliasesAt(n, 0), AliasesAt(n, m);
    assert d == d[..i0] + d[i0..i1] + d[i1..a0] + d[a0..a1] + d[a1..];
    forall k | 0 <= k < n ensures 0 <= p.blobs[k].id < U16 {
      EntryWritesBack(d, k);
    }
    forall k | 0 <= k < m ensures 0 <= p.aliases[k].id < U16 && 0 <= p.aliases[k].index < U16 {
      assert AliasFits(p.aliases[k]);
    }
  }

  // Saving what was loaded gives the same bytes exactly for the well-formed files.
  lemma RoundTripIffWellFormed(d: Bytes)
    requires Load(d).Ok?
    ensures var p := Load(d).value; WellFormed(d) <==> Fits(p) && Image(p) == d
  {
    hide Number, Load, BlobBytes, Image, EntryId, EntryOffset, HeaderBytes;
    var p := Load(d).value;
    LoadsIfIndexed(d);
    if Fits(p) && Image(p) == d {
      var n := |p.blobs|;
      ImageParts(p);
      HeaderReads(p, d);
      ImageIndex(p, 0);
      ImageIndex(p, n);
      assert p.blobs[..0] == [];
      EmptyBlobs();
      forall i | 0 <= i < n ensures EntryOffset(d, i) <= EntryOffset(d, i + 1) {
        ImageIndex(p, i);
        ImageIndex(p, i + 1);
        OffsetsGrow(p, i, i + 1);
      }
    }
    if WellFormed(d) {
      SaveAfterLoad(d);
    }
  }

  // ----- files that are compressed as a whole -----

  // gzip.compress and gzip.decompress; the latter fails on what is not gzip.
  datatype Gzip = Gzip(compress: Bytes -> Bytes, decompress: Bytes -> Option<Bytes>)

  const MAGIC: Bytes := [0x1f, 0x8b]

  predicate HasMagic(d: Bytes) {
    MAGIC <= d
  }

  ghost predicate IsGzip(gz: Gzip) {
    forall d :: HasMagic(gz.compress(d)) && gz.decompress(gz.compress(d)) == Some(d)
  }

  // What is in a file.
  function Unpacked(gz: Gzip, d: Bytes): Result<Bytes> {
    if !HasMagic(d) then Ok(d)
    else match gz.decompress(d)
         case None => Err(NotGzip)
         case Some(x) => Ok(x)
  }

  function LoadFile(gz: Gzip, d: Bytes): Result<Pak> {
    match Unpacked(gz, d)
    case Err(e) => Err(e)
    case Ok(x) => Load(x)
  }

  // The tool remembers, from any load on, that it has seen a compressed file.
  class Tool {
    const gz: Gzip
    var wholeGzip: bool

    constructor (gz: Gzip)
      ensures this.gz == gz && !wholeGzip
    {
      this.gz, wholeGzip := gz, false;
    }

    method LoadAll(d: Bytes) returns (r: Result<Pak>)
      modifies this
      ensures r == LoadFile(gz, d) && wholeGzip == (old(wholeGzip) || HasMagic(d))
    {
      var x := d;
      if HasMagic(d) {
        wholeGzip := true;
        match gz.decompress(d) {
          case None => return Err(NotGzip);
          case Some(y) => x := y;
        }
      }
      r := Load(x);
    }

    method SaveAll(p: Pak) returns (r: Result<Bytes>)
      ensures r == if !Fits(p) then Err(DoesNotFit) else Ok(if wholeGzip then gz.compress(Image(p)) else Image(p))
      ensures IsGzip(gz) && r.Ok? ==> LoadFile(gz, r.value) == Ok(p) && HasMagic(r.value) == wholeGzip
    {
      r := Save(p);
      if r.Ok? {
        LoadAfterSave(p);
        ImageHasNoMagic(p);
        if wholeGzip {
          r := Ok(gz.compress(r.value));
        }
      }
    }
  }

  // A saved file starts with the version, not with the magic.
  lemma ImageHasNoMagic(p: Pak)
    requires Fits(p)
    ensures !HasMagic(Image(p))
  {
    hide Offset, Image;
    ImageParts(p);
    HeaderReads(p, Image(p));
    VersionIsFive(Image(p));
  }

  lemma VersionIsFive(d: Bytes)
    requires |d| >= 4 && Number(d, 0, 4) == VERSION
    ensures d[0] == 5
  {
    var b := d[0..4];
    assert FromLittleEndian(b) == b[0] + 256 * FromLittleEndian(b[1..]);
  }

  // Compressed or not, a file loads exactly if what is in it has its index.
  lemma LoadsIfUnpacked(gz: Gzip, d: Bytes)
    ensures LoadFile(gz, d).Ok? <==> Unpacked(gz, d).Ok? && HasIndex(Unpacked(gz, d).value)
  {
    hide Load, HasIndex;
    if Unpacked(gz, d).Ok? {
      LoadsIfIndexed(Unpacked(gz, d).value);
    }
  }

  // What fits survives saving and loading, with or without compression of the whole.
  lemma LoadAfterSaveOfAll(gz: Gzip, p: Pak, wholeGzip: bool)
    requires IsGzip(gz) && Fits(p)
    ensures LoadFile(gz, if wholeGzip then gz.compress(Image(p)) else Image(p)) == Ok(p)
  {
    hide Image, Fits, Load;
    LoadAfterSave(p);
    ImageHasNoMagic(p);
  }
}
