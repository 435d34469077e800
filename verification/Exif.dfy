// internal/api/thumbs.go: reading the orientation from the marker segments at the
// head of a JPEG file, and an encoder that the reader undoes.
module Exif {
  import opened Common

  newtype byte = x: int | 0 <= x < 256

  datatype Order = Big | Little

  function U16(o: Order, b: seq<byte>, i: nat): (r: int)
    requires i + 2 <= |b|
    ensures 0 <= r < 65536
  {
    if o == Big then b[i] as int * 256 + b[i + 1] as int else b[i] as int + b[i + 1] as int * 256
  }

  function U32(o: Order, b: seq<byte>, i: nat): (r: int)
    requires i + 4 <= |b|
    ensures 0 <= r < 0x1_0000_0000
  {
    if o == Big then U16(o, b, i) * 65536 + U16(o, b, i + 2) else U16(o, b, i) + U16(o, b, i + 2) * 65536
  }

  // ---------------------------------------------------------------------
  // What a file says
  // ---------------------------------------------------------------------

  /** A marker segment: its marker and what follows its length. */
  datatype Segment = Segment(marker: byte, payload: seq<byte>)

  predicate EndsHeader(marker: byte) { marker == 0xDA || marker == 0xD9 }

  /** The marker segments from idx on, up to the scan, the end of the image or the
      first thing that is not a segment. */
  function Segments(b: seq<byte>, idx: nat): seq<Segment>
    decreases |b| - idx
  {
    if idx + 4 > |b| || b[idx] != 0xFF || EndsHeader(b[idx + 1]) then []
    else
      var len := U16(Big, b, idx + 2);
      if len < 2 || idx + 2 + len > |b| then []
      else [Segment(b[idx + 1], b[idx + 4..idx + 2 + len])] + Segments(b, idx + 2 + len)
  }

  const ORIENTATION_TAG := 0x0112

  /** The value of the first of n directory entries that is tagged as orientation,
      1 when there is none, when the entries end early or when it is not 1 to 8. */
  function TagValue(o: Order, b: seq<byte>, start: nat, n: nat): (r: int)
    ensures 1 <= r <= 8
    decreases n
  {
    if n == 0 || start + 12 > |b| then 1
    else if U16(o, b, start) == ORIENTATION_TAG then
      (var v := U16(o, b, start + 8); if 1 <= v <= 8 then v else 1)
    else TagValue(o, b, start + 12, n - 1)
  }

  function TiffByteOrder(b: seq<byte>): Option<Order> {
    if |b| < 2 then None
    else if b[0] == 0x49 && b[1] == 0x49 then Some(Little)
    else if b[0] == 0x4D && b[1] == 0x4D then Some(Big)
    else None
  }

  function TiffOrientation(b: seq<byte>): (r: int)
    ensures 1 <= r <= 8
  {
    var order := TiffByteOrder(b);
    if order.None? || |b| < 8 || U16(order.value, b, 2) != 42 then 1
    else
      var offset := U32(order.value, b, 4);
      if offset < 8 || offset + 2 > |b| then 1
      else TagValue(order.value, b, offset + 2, U16(order.value, b, offset))
  }

  const EXIF_HEAD: seq<byte> := [0x45, 0x78, 0x69, 0x66, 0, 0]

  function ExifOrientation(payload: seq<byte>): (r: int)
    ensures 1 <= r <= 8
  {
    if |payload| >= 14 && payload[..6] == EXIF_HEAD then TiffOrientation(payload[6..]) else 1
  }

  function OrientationOf(s: Segment): (r: int)
    ensures 1 <= r <= 8
  {
    if s.marker == 0xE1 then ExifOrientation(s.payload) else 1
  }

  /** The first answer above 1 that the segments give, 1 when there is none. */
  function First(answer: Segment -> int, segments: seq<Segment>): int {
    if |segments| == 0 then 1
    else if answer(segments[0]) > 1 then answer(segments[0])
    else First(answer, segments[1..])
  }

  function FirstIn(answer: Segment -> int, b: seq<byte>): int {
    if |b| < 4 || b[0] != 0xFF || b[1] != 0xD8 then 1 else First(answer, Segments(b, 2))
  }

  function Orientation(b: seq<byte>): int { FirstIn(OrientationOf, b) }

  // ---------------------------------------------------------------------
  // The reader
  // ---------------------------------------------------------------------

  lemma FirstCons(answer: Segment -> int, s: Segment, rest: seq<Segment>)
    ensures First(answer, [s] + rest) == if answer(s) > 1 then answer(s) else First(answer, rest)
  {
    assert ([s] + rest)[1..] == rest;
  }

  /** What the segments from idx on say is told by the first of them, or by the
      segments after it. */
  ghost predicate ScanStep(answer: Segment -> int, b: seq<byte>, said: nat -> int, idx: nat) {
    said(idx) ==
    if idx + 4 > |b| || b[idx] != 0xFF || EndsHeader(b[idx + 1]) then 1
    else
      var len := U16(Big, b, idx + 2);
      if len < 2 || idx + 2 + len > |b| then 1
      else
        var s := Segment(b[idx + 1], b[idx + 4..idx + 2 + len]);
        if answer(s) > 1 then answer(s) else said(idx + 2 + len)
  }

  function SegmentsFrom(b: seq<byte>): nat -> seq<Segment> { (idx: nat) => Segments(b, idx) }

  /** f finds at idx what Segments does. */
  ghost predicate Unfolds(b: seq<byte>, f: nat -> seq<Segment>, idx: nat) {
    f(idx) ==
    if idx + 4 > |b| || b[idx] != 0xFF || EndsHeader(b[idx + 1]) then []
    else
      var len := U16(Big, b, idx + 2);
      if len < 2 || idx + 2 + len > |b| then []
      else [Segment(b[idx + 1], b[idx + 4..idx + 2 + len])] + f(idx + 2 + len)
  }

  lemma SegmentsUnfold(b: seq<byte>, idx: nat)
    ensures Unfolds(b, SegmentsFrom(b), idx)
  {}

  function SaidBy(answer: Segment -> int, f: nat -> seq<Segment>): nat -> int { (idx: nat) => First(answer, f(idx)) }

  lemma SaidSteps(answer: Segment -> int, b: seq<byte>, f: nat -> seq<Segment>, idx: nat)
    requires Unfolds(b, f, idx)
    ensures ScanStep(answer, b, SaidBy(answer, f), idx)
  {
    if idx + 4 <= |b| {
      var len := U16(Big, b, idx + 2);
      if len >= 2 && idx + 2 + len <= |b| {
        FirstCons(answer, Segment(b[idx + 1], b[idx + 4..idx + 2 + len]), f(idx + 2 + len));
      }
    }
  }

  method ParseExifOrientation(b: seq<byte>) returns (orientation: int)
    ensures 1 <= orientation <= 8
    ensures orientation == Orientation(b)
  {
    if |b| < 4 || b[0] != 0xFF || b[1] != 0xD8 { return 1; }
    forall idx: nat
      ensures ScanStep(OrientationOf, b, SaidBy(OrientationOf, SegmentsFrom(b)), idx)
    {
      SegmentsUnfold(b, idx);
      SaidSteps(OrientationOf, b, SegmentsFrom(b), idx);
    }
    orientation := ScanSegments(b, SaidBy(OrientationOf, SegmentsFrom(b)));
  }

  /** The loop over the segments. */
  method ScanSegments(b: seq<byte>, ghost said: nat -> int) returns (orientation: int)
    requires forall idx: nat :: ScanStep(OrientationOf, b, said, idx)
    ensures 1 <= orientation <= 8
    ensures orientation == said(2)
  {
    var idx := 2;
    while idx + 4 <= |b|
      invariant 2 <= idx && said(2) == said(idx)
      decreases |b| - idx
    {
      assert ScanStep(OrientationOf, b, said, idx);
      if b[idx] != 0xFF { return 1; }
      var marker := b[idx + 1];
      idx := idx + 2;
      if marker == 0xDA || marker == 0xD9 { return 1; }
      if idx + 2 > |b| { return 1; }
      var segLen := U16(Big, b, idx);
      if segLen < 2 || idx + segLen > |b| { return 1; }
      if marker == 0xE1 {
        var orient := ParseApp1Exif(b[idx + 2..idx + segLen]);
        if orient > 1 { return orient; }
      }
      idx := idx + segLen;
    }
    assert ScanStep(OrientationOf, b, said, idx);
    orientation := 1;
  }

  method ParseApp1Exif(payload: seq<byte>) returns (orientation: int)
    ensures orientation == ExifOrientation(payload)
  {
    if |payload| >= 14 && payload[..6] == EXIF_HEAD {
      orientation := ParseTiffOrientation(payload[6..]);
    } else {
      orientation := 1;
    }
  }

  method ParseTiffOrientation(b: seq<byte>) returns (orientation: int)
    ensures orientation == TiffOrientation(b)
  {
    var order := TiffByteOrder(b);
    if order.None? || |b| < 8 || U16(order.value, b, 2) != 42 { return 1; }
    var offset := U32(order.value, b, 4);
    if offset < 8 || offset + 2 > |b| { return 1; }
    var entries := U16(order.value, b, offset);
    orientation := FindOrientationTag(b, offset + 2, entries, order.value);
  }

  method FindOrientationTag(b: seq<byte>, start: nat, entries: nat, o: Order) returns (orientation: int)
    ensures orientation == TagValue(o, b, start, entries)
  {
    for i := 0 to entries
      invariant TagValue(o, b, start, entries) == TagValue(o, b, start + i * 12, entries - i)
    {
      var offset := start + i * 12;
      if offset + 12 > |b| { return 1; }
      if U16(o, b, offset) == ORIENTATION_TAG {
        var val := U16(o, b, offset + 8);
        if 1 <= val <= 8 { return val; }
        return 1;
      }
    }
    orientation := 1;
  }

  // ---------------------------------------------------------------------
  // An encoder
  // ---------------------------------------------------------------------

  type word = x: int | 0 <= x < 65536

  function Put16(o: Order, x: word): (r: seq<byte>)
    ensures |r| == 2 && U16(o, r, 0) == x
  {
    var hi, lo := (x / 256) as byte, (x % 256) as byte;
    if o == Big then [hi, lo] else [lo, hi]
  }

  function Put32(o: Order, x: int): (r: seq<byte>)
    requires 0 <= x < 0x1_0000_0000
    ensures |r| == 4 && U32(o, r, 0) == x
  {
    var hi, lo := Put16(o, x / 65536), Put16(o, x % 65536);
    if o == Big then hi + lo else lo + hi
  }

  /** A directory entry: tag, type, count and the four bytes of its value. */
  datatype Entry = Entry(tag: word, kind: word, count: int, value: seq<byte>)

  predicate EntryOk(e: Entry) { 0 <= e.count < 0x1_0000_0000 && |e.value| == 4 }

  function PutEntry(o: Order, e: Entry): (r: seq<byte>)
    requires EntryOk(e)
    ensures |r| == 12
  {
    Put16(o, e.tag) + Put16(o, e.kind) + Put32(o, e.count) + e.value
  }

  predicate EntriesOk(es: seq<Entry>) { forall i :: 0 <= i < |es| ==> EntryOk(es[i]) }

  function PutEntries(o: Order, es: seq<Entry>): (r: seq<byte>)
    requires EntriesOk(es)
    ensures |r| == 12 * |es|
  {
    if |es| == 0 then [] else PutEntry(o, es[0]) + PutEntries(o, es[1..])
  }

  function OrderMark(o: Order): seq<byte> { if o == Big then [0x4D, 0x4D] else [0x49, 0x49] }

  /** A TIFF block: its head, a gap, the first directory and what comes after. */
  function PutTiff(o: Order, gap: seq<byte>, es: seq<Entry>, after: seq<byte>): (r: seq<byte>)
    requires EntriesOk(es) && |es| < 65536 && |gap| < 65536
  {
    OrderMark(o) + Put16(o, 42) + Put32(o, 8 + |gap|) + gap + Put16(o, |es|) + PutEntries(o, es) + after
  }

  predicate SegmentOk(s: Segment) { !EndsHeader(s.marker) && |s.payload| <= 65533 }

  function PutSegment(s: Segment): seq<byte>
    requires SegmentOk(s)
  {
    [0xFF, s.marker] + Put16(Big, |s.payload| + 2) + s.payload
  }

  predicate SegmentsOk(ss: seq<Segment>) { forall i :: 0 <= i < |ss| ==> SegmentOk(ss[i]) }

  function PutSegments(ss: seq<Segment>, image: seq<byte>): seq<byte>
    requires SegmentsOk(ss)
  {
    if |ss| == 0 then image else PutSegment(ss[0]) + PutSegments(ss[1..], image)
  }

  // ---------------------------------------------------------------------
  // The reader undoes the encoder
  // ---------------------------------------------------------------------

  lemma Prefix16(o: Order, a: seq<byte>, b: seq<byte>, i: nat)
    requires i + 2 <= |a|
    ensures U16(o, a + b, i) == U16(o, a, i)
  {}

  /** b holds part at position at. */
  predicate Holds(b: seq<byte>, at: nat, part: seq<byte>) { at + |part| <= |b| && b[at..at + |part|] == part }

  lemma HoldsParts(b: seq<byte>, at: nat, p: seq<byte>, q: seq<byte>)
    requires Holds(b, at, p + q)
    ensures Holds(b, at, p) && Holds(b, at + |p|, q)
  {
    assert p == (p + q)[..|p|] == b[at..at + |p + q|][..|p|];
    assert q == (p + q)[|p|..] == b[at..at + |p + q|][|p|..];
  }

  lemma Held16(o: Order, b: seq<byte>, at: nat, part: seq<byte>, i: nat)
    requires Holds(b, at, part) && i + 2 <= |part|
    ensures U16(o, b, at + i) == U16(o, part, i)
  {
    assert part[i] == b[at..at + |part|][i] == b[at + i];
    assert part[i + 1] == b[at..at + |part|][i + 1] == b[at + i + 1];
  }

  lemma EntryRead(o: Order, e: Entry, b: seq<byte>, at: nat)
    requires EntryOk(e) && Holds(b, at, PutEntry(o, e))
    ensures at + 12 <= |b| && U16(o, b, at) == e.tag && U16(o, b, at + 8) == U16(o, e.value, 0)
  {
    Held16(o, b, at, PutEntry(o, e), 0);
    Held16(o, b, at, PutEntry(o, e), 8);
    var p := PutEntry(o, e);
    assert p[0] == Put16(o, e.tag)[0] && p[1] == Put16(o, e.tag)[1];
    assert p[8] == e.value[0] && p[9] == e.value[1];
  }

  lemma EntriesHeld(o: Order, es: seq<Entry>, b: seq<byte>, at: nat)
    requires EntriesOk(es) && |es| > 0 && Holds(b, at, PutEntries(o, es))
    ensures Holds(b, at + 12, PutEntries(o, es[1..]))
    ensures at + 12 <= |b| && U16(o, b, at) == es[0].tag && U16(o, b, at + 8) == U16(o, es[0].value, 0)
  {
    HoldsParts(b, at, PutEntry(o, es[0]), PutEntries(o, es[1..]));
    EntryRead(o, es[0], b, at);
  }

  /** es is before, then e, the first orientation, then others. */
  predicate FirstTagged(es: seq<Entry>, before: seq<Entry>, e: Entry) {
    EntriesOk(es) && |before| < |es| && es[..|before|] == before && es[|before|] == e && e.tag == ORIENTATION_TAG &&
    forall i :: 0 <= i < |before| ==> before[i].tag != ORIENTATION_TAG
  }

  lemma TaggedTail(es: seq<Entry>, before: seq<Entry>, e: Entry)
    requires FirstTagged(es, before, e) && |before| > 0
    ensures FirstTagged(es[1..], before[1..], e) && es[0].tag != ORIENTATION_TAG
  {
    assert es[0] == before[0];
    assert es[1..][..|before| - 1] == before[1..];
  }

  lemma {:induction false} TagRead(o: Order, es: seq<Entry>, before: seq<Entry>, e: Entry, b: seq<byte>, at: nat)
    requires FirstTagged(es, before, e) && Holds(b, at, PutEntries(o, es))
    ensures TagValue(o, b, at, |es|) == var v := U16(o, e.value, 0); if 1 <= v <= 8 then v else 1
    decreases |before|
  {
    EntriesHeld(o, es, b, at);
    if |before| > 0 {
      TaggedTail(es, before, e);
      TagRead(o, es[1..], before[1..], e, b, at + 12);
    }
  }

  /** The head of a TIFF block gives its byte order and where the directory is. */
  lemma HeadRead(o: Order, offset: int, rest: seq<byte>)
    requires 0 <= offset < 0x1_0000_0000
    ensures var b := OrderMark(o) + Put16(o, 42) + Put32(o, offset) + rest;
            TiffByteOrder(b) == Some(o) && |b| == 8 + |rest| && U16(o, b, 2) == 42 && U32(o, b, 4) == offset
  {
    var b := OrderMark(o) + Put16(o, 42) + Put32(o, offset) + rest;
    assert b[0] == OrderMark(o)[0] && b[1] == OrderMark(o)[1];
    assert b[2] == Put16(o, 42)[0] && b[3] == Put16(o, 42)[1];
    var at := Put32(o, offset);
    assert b[4] == at[0] && b[5] == at[1] && b[6] == at[2] && b[7] == at[3];
    assert U16(o, b, 4) == U16(o, at, 0) && U16(o, b, 6) == U16(o, at, 2);
  }

  lemma TiffRead(o: Order, gap: seq<byte>, es: seq<Entry>, after: seq<byte>)
    requires EntriesOk(es) && |es| < 65536 && |gap| < 65536
    ensures var b := PutTiff(o, gap, es, after); var at := 8 + |gap| + 2;
            TiffOrientation(b) == TagValue(o, b, at, |es|) && Holds(b, at, PutEntries(o, es))
  {
    var fixed := OrderMark(o) + Put16(o, 42) + Put32(o, 8 + |gap|);
    var n, entries := Put16(o, |es|), PutEntries(o, es);
    TiffParts(fixed, gap, n, entries, after);
    HeadRead(o, 8 + |gap|, gap + (n + (entries + after)));
    HoldsMiddle(fixed + gap, n, entries + after);
    HoldsMiddle(fixed + gap + n, entries, after);
    var b := PutTiff(o, gap, es, after);
    Held16(o, b, 8 + |gap|, n, 0);
  }

  lemma HoldsMiddle(a: seq<byte>, p: seq<byte>, c: seq<byte>)
    ensures Holds(a + p + c, |a|, p)
  {}

  lemma TiffParts(fixed: seq<byte>, gap: seq<byte>, n: seq<byte>, entries: seq<byte>, after: seq<byte>)
    ensures fixed + gap + n + entries + after == fixed + (gap + (n + (entries + after)))
    ensures fixed + gap + n + entries + after == (fixed + gap) + n + (entries + after)
  {}

  lemma ExifRead(tiff: seq<byte>)
    requires |tiff| >= 8
    ensures ExifOrientation(EXIF_HEAD + tiff) == TiffOrientation(tiff)
  {
    assert (EXIF_HEAD + tiff)[..6] == EXIF_HEAD && (EXIF_HEAD + tiff)[6..] == tiff;
  }

  lemma SegmentRead(s: Segment, b: seq<byte>, idx: nat)
    requires SegmentOk(s) && Holds(b, idx, PutSegment(s))
    ensures var end := idx + 4 + |s.payload|;
            end <= |b| && b[idx] == 0xFF && b[idx + 1] == s.marker && b[idx + 4..end] == s.payload &&
            U16(Big, b, idx + 2) == |s.payload| + 2
  {
    var p, size := PutSegment(s), Put16(Big, |s.payload| + 2);
    assert p == ([0xFF, s.marker] + size) + s.payload;
    HoldsParts(b, idx, [0xFF, s.marker] + size, s.payload);
    HoldsParts(b, idx, [0xFF, s.marker], size);
    Held16(Big, b, idx + 2, size, 0);
    assert b[idx..idx + 2][0] == 0xFF && b[idx..idx + 2][1] == s.marker;
  }

  lemma DropParts(b: seq<byte>, at: nat, p: seq<byte>, q: seq<byte>)
    requires at <= |b| && b[at..] == p + q
    ensures Holds(b, at, p) && b[at + |p|..] == q
  {
    assert |p + q| == |b| - at;
    assert p == (p + q)[..|p|] && q == (p + q)[|p|..];
    assert b[at..][..|p|] == b[at..at + |p|] && b[at..][|p|..] == b[at + |p|..];
  }

  /** What f finds at idx is s and what it finds after s, if s is there. */
  ghost predicate Finds(f: nat -> seq<Segment>, b: seq<byte>, s: Segment, idx: nat) {
    SegmentOk(s) && Holds(b, idx, PutSegment(s)) ==> f(idx) == [s] + f(idx + |PutSegment(s)|)
  }

  lemma SegmentFound(f: nat -> seq<Segment>, b: seq<byte>, s: Segment, idx: nat)
    requires Unfolds(b, f, idx)
    ensures Finds(f, b, s, idx)
  {
    if SegmentOk(s) && Holds(b, idx, PutSegment(s)) {
      SegmentRead(s, b, idx);
      assert |PutSegment(s)| == 4 + |s.payload|;
    }
  }

  lemma {:induction false} FindsAll(f: nat -> seq<Segment>, ss: seq<Segment>, image: seq<byte>, b: seq<byte>, idx: nat)
    requires SegmentsOk(ss) && idx <= |b| && b[idx..] == PutSegments(ss, image)
    requires forall s, i: nat :: Finds(f, b, s, i)
    ensures |image| <= |b| && f(idx) == ss + f(|b| - |image|) && b[|b| - |image|..] == image
    decreases |ss|
  {
    if |ss| == 0 {
      assert idx == |b| - |image|;
      assert ss + f(idx) == f(idx);
    } else {
      var one := PutSegment(ss[0]);
      DropParts(b, idx, one, PutSegments(ss[1..], image));
      assert Finds(f, b, ss[0], idx);
      FindsAll(f, ss[1..], image, b, idx + |one|);
      ConsAppend(ss, f(|b| - |image|));
    }
  }

  /** Segments is the inverse of PutSegments: from where they were put on it finds
      them, and then what it finds from the image on. */
  lemma SegmentsRead(ss: seq<Segment>, image: seq<byte>, b: seq<byte>, idx: nat)
    requires SegmentsOk(ss) && idx <= |b| && b[idx..] == PutSegments(ss, image)
    ensures |image| <= |b| && Segments(b, idx) == ss + Segments(b, |b| - |image|) && b[|b| - |image|..] == image
  {
    forall s, i: nat
      ensures Finds(SegmentsFrom(b), b, s, i)
    {
      SegmentsUnfold(b, i);
      SegmentFound(SegmentsFrom(b), b, s, i);
    }
    FindsAll(SegmentsFrom(b), ss, image, b, idx);
  }

  lemma ConsAppend(ss: seq<Segment>, rest: seq<Segment>)
    requires |ss| > 0
    ensures ss + rest == [ss[0]] + (ss[1..] + rest)
  {}

  lemma {:induction false} FirstAfter(answer: Segment -> int, before: seq<Segment>, rest: seq<Segment>)
    requires forall i :: 0 <= i < |before| ==> answer(before[i]) <= 1
    ensures First(answer, before + rest) == First(answer, rest)
  {
    if |before| == 0 {
      assert before + rest == rest;
    } else {
      assert (before + rest)[1..] == before[1..] + rest;
      FirstAfter(answer, before[1..], rest);
    }
  }

  /** A file: the start marker, segments and an image. */
  predicate IsFile(file: seq<byte>, ss: seq<Segment>, image: seq<byte>)
    requires SegmentsOk(ss)
  {
    |file| >= 2 && file[0] == 0xFF && file[1] == 0xD8 && file[2..] == PutSegments(ss, image)
  }

  lemma FileRead(answer: Segment -> int, before: seq<Segment>, s: Segment, image: seq<byte>, file: seq<byte>)
    requires SegmentsOk(before) && SegmentOk(s) && forall i :: 0 <= i < |before| ==> answer(before[i]) <= 1
    requires IsFile(file, before + [s], image)
    ensures |image| <= |file| && file[|file| - |image|..] == image
    ensures FirstIn(answer, file) ==
            if answer(s) > 1 then answer(s) else First(answer, Segments(file, |file| - |image|))
  {
    SegmentsRead(before + [s], image, file, 2);
    FirstFound(answer, before, s, Segments(file, |file| - |image|));
    SomeSegment(before + [s], image);
  }

  lemma FirstFound(answer: Segment -> int, before: seq<Segment>, s: Segment, rest: seq<Segment>)
    requires forall i :: 0 <= i < |before| ==> answer(before[i]) <= 1
    ensures First(answer, before + [s] + rest) == if answer(s) > 1 then answer(s) else First(answer, rest)
  {
    assert before + [s] + rest == before + ([s] + rest);
    FirstAfter(answer, before, [s] + rest);
    FirstCons(answer, s, rest);
  }

  lemma SomeSegment(ss: seq<Segment>, image: seq<byte>)
    requires SegmentsOk(ss) && |ss| > 0
    ensures |PutSegments(ss, image)| >= 4
  {}

  /** An Exif payload with orientation v in its first directory. */
  function PutExif(o: Order, gap: seq<byte>, es: seq<Entry>, after: seq<byte>): seq<byte>
    requires EntriesOk(es) && |es| < 65536 && |gap| < 65536
  {
    EXIF_HEAD + PutTiff(o, gap, es, after)
  }

  lemma PayloadRead(o: Order, gap: seq<byte>, es: seq<Entry>, before: seq<Entry>, e: Entry, after: seq<byte>)
    requires FirstTagged(es, before, e) && |es| < 65536 && |gap| < 65536
    ensures ExifOrientation(PutExif(o, gap, es, after)) == var v := U16(o, e.value, 0); if 1 <= v <= 8 then v else 1
  {
    var b := PutTiff(o, gap, es, after);
    TiffRead(o, gap, es, after);
    TagRead(o, es, before, e, b, 10 + |gap|);
    ExifRead(b);
  }

  predicate StartsScan(image: seq<byte>) { |image| >= 2 && image[0] == 0xFF && EndsHeader(image[1]) }

  lemma ScanStops(file: seq<byte>, at: nat)
    requires at <= |file| && StartsScan(file[at..])
    ensures Segments(file, at) == []
  {
    assert file[at] == file[at..][0] && file[at + 1] == file[at..][1];
  }

  /** An encoded orientation v is read back: in either byte order, after any
      segments that do not turn the image and any other entries, before any others,
      when the scan follows. An orientation of 1, or one past 8, leaves the choice
      to what comes later. */
  lemma OrientationRoundTrip(before: seq<Segment>, o: Order, gap: seq<byte>, es: seq<Entry>, others: seq<Entry>,
                             e: Entry, v: word, pad: seq<byte>, after: seq<byte>,
                             exif: Segment, image: seq<byte>, file: seq<byte>)
    requires SegmentsOk(before) && forall i :: 0 <= i < |before| ==> OrientationOf(before[i]) == 1
    requires FirstTagged(es, others, e) && e.value == Put16(o, v) + pad && |es| < 65536 && |gap| < 65536
    requires exif == Segment(0xE1, PutExif(o, gap, es, after)) && SegmentOk(exif)
    requires IsFile(file, before + [exif], image)
    ensures |image| <= |file|
    ensures 1 <= v <= 8 && StartsScan(image) ==> Orientation(file) == v
    ensures Orientation(file) == if 2 <= v <= 8 then v else First(OrientationOf, Segments(file, |file| - |image|))
  {
    Prefix16(o, Put16(o, v), pad, 0);
    PayloadRead(o, gap, es, others, e, after);
    FileRead(OrientationOf, before, exif, image, file);
    if StartsScan(image) { ScanStops(file, |file| - |image|); }
  }

  /** A directory of one entry, octet by octet: the orientation v in either byte order. */
  function ShortTiff(o: Order, v: byte): seq<byte> {
    if o == Big then [0x4D, 0x4D, 0, 0x2A, 0, 0, 0, 8, 0, 1, 0x01, 0x12, 0, 3, 0, 0, 0, 1, 0, v, 0, 0]
    else [0x49, 0x49, 0x2A, 0, 8, 0, 0, 0, 1, 0, 0x12, 0x01, 3, 0, 1, 0, 0, 0, v, 0, 0, 0]
  }

  lemma ShortTiffRead(o: Order, v: byte)
    requires 1 <= v <= 8
    ensures TiffOrientation(ShortTiff(o, v)) == v as int
  {
    var b := ShortTiff(o, v);
    assert |b| == 22 && TiffByteOrder(b) == Some(o);
    assert U16(o, b, 2) == 42 && U16(o, b, 4) + U16(o, b, 6) == 8 && U32(o, b, 4) == 8;
    assert U16(o, b, 8) == 1 && U16(o, b, 10) == 274 && U16(o, b, 18) == v as int;
    assert TagValue(o, b, 10, 1) == v as int;
  }

  const START: seq<byte> := [0xFF, 0xD8, 0xFF, 0xE1, 0, 30]

  /** The shortest file with an orientation, octet by octet. */
  lemma ShortestFile(o: Order, v: byte, image: seq<byte>, file: seq<byte>)
    requires 1 <= v <= 8 && StartsScan(image)
    requires file == START + ([0x45, 0x78, 0x69, 0x66, 0, 0] + ShortTiff(o, v)) + image
    ensures Orientation(file) == v as int
  {
    var payload := [0x45, 0x78, 0x69, 0x66, 0, 0] + ShortTiff(o, v);
    ShortTiffRead(o, v);
    ExifRead(ShortTiff(o, v));
    var exif := Segment(0xE1, payload);
    assert OrientationOf(exif) == v as int;
    ShortFile(exif, image, file);
    FirstSegmentRead(exif, image, file);
  }

  lemma FirstSegmentRead(exif: Segment, image: seq<byte>, file: seq<byte>)
    requires SegmentOk(exif) && StartsScan(image) && IsFile(file, [] + [exif], image)
    ensures Orientation(file) == OrientationOf(exif)
  {
    FileRead(OrientationOf, [], exif, image, file);
    ScanStops(file, |file| - |image|);
  }

  lemma ShortFile(exif: Segment, image: seq<byte>, file: seq<byte>)
    requires exif.marker == 0xE1 && |exif.payload| == 28 && file == START + exif.payload + image
    ensures IsFile(file, [] + [exif], image)
  {
    assert Put16(Big, 30) == [0, 30];
    assert [exif][1..] == [] && [] + [exif] == [exif];
    assert PutSegments([exif], image) == PutSegment(exif) + image;
    assert PutSegment(exif) == [0xFF, 0xE1, 0, 30] + exif.payload;
    assert file[2..] == [0xFF, 0xE1, 0, 30] + exif.payload + image;
  }
}
