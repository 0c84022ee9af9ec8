/**
 Shapefile records to well-known binary. Coordinates are copied as bytes, never decoded: a point is
 two doubles, 16 opaque bytes.
 */
module Shapefile {
  import opened Options
  import opened Bytes
  import opened Planar

  datatype Error = StructError | InvalidHeader | UnsupportedType | UnexpectedType | BeforeTheFile

  datatype Result<+T> = Ok(value: T) | Err(error: Error)

  const NULL_SHAPE := 0
  const POINT_SHAPE := 1
  const POLYLINE_SHAPE := 3

  type Coordinates = p: seq<Byte> | |p| == 16 witness seq(16, _ => 0)

  type Part = seq<Coordinates>

  // ---------------------------------------------------------------------------------------------
  // Well-known binary
  // ---------------------------------------------------------------------------------------------

  function Header(kind: nat, count: nat): (bytes: seq<Byte>)
    requires kind < TWO_32 && count < TWO_32
    ensures |bytes| == 9
  {
    [1] + Le32(kind) + Le32(count)
  }

  function Flatten(part: Part): (bytes: seq<Byte>)
    ensures |bytes| == 16 * |part|
  {
    if part == [] then [] else part[0] + Flatten(part[1..])
  }

  ghost predicate Encodable(parts: seq<Part>) {
    |parts| < TWO_32 && forall i :: 0 <= i < |parts| ==> |parts[i]| < TWO_32
  }

  function LineStrings(parts: seq<Part>): (bytes: seq<Byte>)
    requires forall i :: 0 <= i < |parts| ==> |parts[i]| < TWO_32
  {
    if parts == [] then [] else
    Header(2, |parts[0]|) + Flatten(parts[0]) + LineStrings(parts[1..])
  }

  /** The multi-line string of decoded parts. */
  function WkbMultiLineString(parts: seq<Part>): seq<Byte>
    requires Encodable(parts)
  {
    Header(5, |parts|) + LineStrings(parts)
  }

  /** `count` points read from the front of the data, and what follows them. */
  function ParsePoints(data: seq<Byte>, count: nat): (r: Option<(Part, seq<Byte>)>)
    decreases count
  {
    if count == 0 then Some(([], data))
    else if |data| < 16 then None
    else match ParsePoints(data[16..], count - 1)
      case None => None
      case Some((part, rest)) => Some(([data[..16]] + part, rest))
  }

  function ParseHeader(data: seq<Byte>, kind: nat): Option<nat> {
    if |data| >= 9 && data[0] == 1 && U32At(data, 1) == kind then Some(U32At(data, 5)) else None
  }

  function ParseLines(data: seq<Byte>, count: nat): Option<(seq<Part>, seq<Byte>)>
    decreases count
  {
    if count == 0 then Some(([], data)) else
    match ParseHeader(data, 2)
    case None => None
    case Some(points) =>
      match ParsePoints(data[9..], points)
      case None => None
      case Some((part, rest)) =>
        match ParseLines(rest, count - 1)
        case None => None
        case Some((parts, end)) => Some(([part] + parts, end))
  }

  /** A reader of the binary: the parts of a multi-line string that is the whole of the data. */
  function ParseMultiLineString(data: seq<Byte>): Option<seq<Part>> {
    match ParseHeader(data, 5)
    case None => None
    case Some(count) =>
      match ParseLines(data[9..], count)
      case None => None
      case Some((parts, end)) => if end == [] then Some(parts) else None
  }

  lemma HeaderRoundTrip(kind: nat, count: nat, rest: seq<Byte>)
    requires kind < TWO_32 && count < TWO_32
    ensures ParseHeader(Header(kind, count) + rest, kind) == Some(count)
    ensures (Header(kind, count) + rest)[9..] == rest
  {
    var data := Header(kind, count) + rest;
    HasMiddle([1], Le32(kind), Le32(count));
    HasLast([1] + Le32(kind), Le32(count));
    HasFirst(Header(kind, count), rest);
    HasInside(data, 0, Header(kind, count), 1, Le32(kind));
    HasInside(data, 0, Header(kind, count), 5, Le32(count));
    ReadLe32(data, 1, kind);
    ReadLe32(data, 5, count);
  }

  lemma {:induction false} PointsRoundTrip(part: Part, rest: seq<Byte>)
    ensures ParsePoints(Flatten(part) + rest, |part|) == Some((part, rest))
  {
    if part == [] {
      assert Flatten(part) + rest == rest;
    } else {
      var data := Flatten(part) + rest;
      assert data[16..] == Flatten(part[1..]) + rest;
      assert data[..16] == part[0];
      PointsRoundTrip(part[1..], rest);
      assert part == [part[0]] + part[1..];
    }
  }

  lemma Regroup(a: seq<Byte>, b: seq<Byte>, c: seq<Byte>, d: seq<Byte>)
    ensures a + b + c + d == a + (b + (c + d))
  { }

  lemma {:induction false} LinesRoundTrip(parts: seq<Part>, rest: seq<Byte>)
    requires forall i :: 0 <= i < |parts| ==> |parts[i]| < TWO_32
    ensures ParseLines(LineStrings(parts) + rest, |parts|) == Some((parts, rest))
  {
    if parts == [] {
      assert LineStrings(parts) + rest == rest;
    } else {
      var tail := LineStrings(parts[1..]) + rest;
      var points := Flatten(parts[0]) + tail;
      Regroup(Header(2, |parts[0]|), Flatten(parts[0]), LineStrings(parts[1..]), rest);
      HeaderRoundTrip(2, |parts[0]|, points);
      PointsRoundTrip(parts[0], tail);
      LinesRoundTrip(parts[1..], rest);
      assert parts == [parts[0]] + parts[1..];
    }
  }

  /** Reading the binary back gives the parts. */
  lemma WkbRoundTrip(parts: seq<Part>)
    requires Encodable(parts)
    ensures ParseMultiLineString(WkbMultiLineString(parts)) == Some(parts)
  {
    HeaderRoundTrip(5, |parts|, LineStrings(parts));
    LinesRoundTrip(parts, []);
    assert LineStrings(parts) + [] == LineStrings(parts);
  }

  // ---------------------------------------------------------------------------------------------
  // PolyLine record contents
  // ---------------------------------------------------------------------------------------------

  /** Enough bytes for the counts and the part starts: otherwise unpacking fails. */
  predicate Unpackable(content: seq<Byte>) {
    |content| >= 44 && I32At(content, 36) >= 0 && |content| >= 44 + 4 * I32At(content, 36)
  }

  function NumParts(content: seq<Byte>): (n: nat)
    requires Unpackable(content)
    ensures n < TWO_31
  { I32At(content, 36) }

  function NumPoints(content: seq<Byte>): (n: int)
    requires Unpackable(content)
    ensures -TWO_31 <= n < TWO_31
  { I32At(content, 40) }

  function StartOf(content: seq<Byte>, index: nat): (start: int)
    requires Unpackable(content) && index < NumParts(content)
    ensures -TWO_31 <= start < TWO_31
  { I32At(content, 44 + 4 * index) }

  /** First point after part `index`. */
  function EndOf(content: seq<Byte>, index: nat): (end: int)
    requires Unpackable(content) && index < NumParts(content)
    ensures -TWO_31 <= end < TWO_31
  {
    if index + 1 < NumParts(content) then StartOf(content, index + 1) else NumPoints(content)
  }

  function PointsAt(content: seq<Byte>): nat
    requires Unpackable(content)
  { 44 + 4 * NumParts(content) }

  /** Line strings written so far, and how many. */
  datatype Copy = Copy(kept: nat, chunks: seq<Byte>)

  /** Copies points `start` up to `end`, unless they are too few to be a line. */
  function CopyPart(before: Copy, content: seq<Byte>, at: nat, start: int, end: int): (copy: Copy)
    requires -TWO_31 <= start < TWO_31 && -TWO_31 <= end < TWO_31
    ensures copy.kept <= before.kept + 1
  {
    if end - start < 2 then before else
    Copy(before.kept + 1, before.chunks + Header(2, end - start) + Slice(content, at + 16 * start, at + 16 * end))
  }

  function Copied(content: seq<Byte>, n: nat): (copy: Copy)
    requires Unpackable(content) && n <= NumParts(content)
    ensures copy.kept <= n
  {
    if n == 0 then Copy(0, []) else
    CopyPart(Copied(content, n - 1), content, PointsAt(content), StartOf(content, n - 1), EndOf(content, n - 1))
  }

  lemma CopiedNext(content: seq<Byte>, n: nat)
    requires Unpackable(content) && n < NumParts(content)
    ensures Copied(content, n + 1) ==
            CopyPart(Copied(content, n), content, PointsAt(content), StartOf(content, n), EndOf(content, n))
  { }

  /** What the slice-copying encoder makes of any record content. */
  function PolylineWkb(content: seq<Byte>): Result<Option<seq<Byte>>> {
    if !Unpackable(content) then Err(StructError) else
    var copied := Copied(content, NumParts(content));
    if copied.kept == 0 then Ok(None) else Ok(Some(Header(5, copied.kept) + copied.chunks))
  }

  method EncodePolyline(content: seq<Byte>) returns (r: Result<Option<seq<Byte>>>)
    ensures r == PolylineWkb(content)
  {
    if |content| < 44 {
      return Err(StructError);
    }
    var numParts, numPoints := I32At(content, 36), I32At(content, 40);
    if numParts < 0 || |content| < 44 + 4 * numParts {
      return Err(StructError);
    }
    var copied := CopyParts(content);
    if copied.kept == 0 {
      return Ok(None);
    }
    return Ok(Some(Header(5, copied.kept) + copied.chunks));
  }

  method CopyParts(content: seq<Byte>) returns (copied: Copy)
    requires Unpackable(content)
    ensures copied == Copied(content, NumParts(content))
  {
    var numParts, offset := NumParts(content), PointsAt(content);
    copied := Copy(0, []);
    for index := 0 to numParts
      invariant copied == Copied(content, index)
    {
      var start := StartOf(content, index);
      var end := EndOf(content, index);
      CopiedNext(content, index);
      if end - start < 2 {
        continue;
      }
      copied := Copy(copied.kept + 1,
        copied.chunks + Header(2, end - start) + Slice(content, offset + 16 * start, offset + 16 * end));
    }
  }

  // ---------------------------------------------------------------------------------------------
  // Well-formed records
  // ---------------------------------------------------------------------------------------------

  /** Part starts ascend within the points, and all points are there. */
  ghost predicate WellFormed(content: seq<Byte>) {
    && Unpackable(content)
    && 0 <= NumPoints(content)
    && |content| >= PointsAt(content) + 16 * NumPoints(content)
    && forall i: nat :: i < NumParts(content) ==> 0 <= StartOf(content, i) <= EndOf(content, i) <= NumPoints(content)
  }

  /** The `count` points that begin at byte `at`, decoded one by one. */
  function Points(data: seq<Byte>, at: nat, count: nat): (part: Part)
    requires at + 16 * count <= |data|
    ensures |part| == count
    decreases count
  {
    if count == 0 then [] else [data[at..at + 16]] + Points(data, at + 16, count - 1)
  }

  lemma {:induction false} PointsAreTheSlice(data: seq<Byte>, at: nat, count: nat)
    requires at + 16 * count <= |data|
    ensures Flatten(Points(data, at, count)) == data[at..at + 16 * count]
    decreases count
  {
    if count > 0 {
      var part := Points(data, at, count);
      PointsAreTheSlice(data, at + 16, count - 1);
      assert part[1..] == Points(data, at + 16, count - 1);
    }
  }

  /** The parts of a record, decoded. */
  function Parts(content: seq<Byte>, n: nat): (parts: seq<Part>)
    requires WellFormed(content) && n <= NumParts(content)
    ensures |parts| == n
    ensures forall i :: 0 <= i < n ==> |parts[i]| < TWO_32
  {
    if n == 0 then [] else
    Parts(content, n - 1) + [NextPart(content, n - 1)]
  }

  /** Parts with at least two points: a single point is not a line. */
  function Lines(parts: seq<Part>): (lines: seq<Part>)
    ensures |lines| <= |parts|
    ensures forall i :: 0 <= i < |lines| ==> lines[i] in parts && |lines[i]| >= 2
  {
    if parts == [] then [] else
    var n := |parts| - 1;
    if |parts[n]| < 2 then Lines(parts[..n]) else Lines(parts[..n]) + [parts[n]]
  }

  /** The lines are the parts with two points or more, in order. */
  ghost predicate LinesAt(parts: seq<Part>, at: seq<nat>, n: nat) {
    Ascending(at) && forall i: nat :: i in at <==> i < n <= |parts| && |parts[i]| >= 2
  }

  lemma LinesOneMore(parts: seq<Part>, at: seq<nat>, n: nat)
    requires n < |parts| && LinesAt(parts[..n], at, n)
    ensures InRange(at, n)
    ensures LinesAt(parts, if |parts[n]| >= 2 then at + [n] else at, n + 1)
  {
    assert forall m :: 0 <= m < |at| ==> at[m] in at;
  }

  lemma SelectLast(parts: seq<Part>, at: seq<nat>, n: nat)
    requires n < |parts| && InRange(at, n)
    ensures Select(parts[..n], at) == Select(parts, at)
    ensures Select(parts, at + [n]) == Select(parts, at) + [parts[n]]
  { }

  lemma {:induction false} LinesAre(parts: seq<Part>) returns (at: seq<nat>)
    ensures LinesAt(parts, at, |parts|) && InRange(at, |parts|) && Lines(parts) == Select(parts, at)
  {
    if parts == [] {
      at := [];
    } else {
      var n := |parts| - 1;
      var before := LinesAre(parts[..n]);
      LinesOneMore(parts, before, n);
      SelectLast(parts, before, n);
      at := if |parts[n]| >= 2 then before + [n] else before;
    }
  }

  lemma {:induction false} LineStringsSnoc(parts: seq<Part>, part: Part)
    requires |part| < TWO_32 && forall i :: 0 <= i < |parts| ==> |parts[i]| < TWO_32
    ensures LineStrings(parts + [part]) == LineStrings(parts) + Header(2, |part|) + Flatten(part)
  {
    if parts == [] {
      assert parts + [part] == [part];
      assert LineStrings([part]) == Header(2, |part|) + Flatten(part) + LineStrings([]);
    } else {
      var all := parts + [part];
      assert all[1..] == parts[1..] + [part];
      LineStringsSnoc(parts[1..], part);
    }
  }

  lemma SliceWithin(data: seq<Byte>, from: nat, to: nat)
    requires from <= to <= |data|
    ensures Slice(data, from, to) == data[from..to]
  { }

  /** The part after the first `n`, decoded. */
  function NextPart(content: seq<Byte>, n: nat): (part: Part)
    requires WellFormed(content) && n < NumParts(content)
    ensures |part| == EndOf(content, n) - StartOf(content, n)
  {
    Points(content, PointsAt(content) + 16 * StartOf(content, n), EndOf(content, n) - StartOf(content, n))
  }

  lemma CopyIsDecodeThenEncode(before: Copy, content: seq<Byte>, n: nat)
    requires WellFormed(content) && n < NumParts(content)
    ensures var part := NextPart(content, n);
            CopyPart(before, content, PointsAt(content), StartOf(content, n), EndOf(content, n)) ==
            if |part| < 2 then before else Copy(before.kept + 1, before.chunks + Header(2, |part|) + Flatten(part))
  {
    SliceOfPoints(content, PointsAt(content), StartOf(content, n), EndOf(content, n));
  }

  lemma SliceOfPoints(data: seq<Byte>, at: nat, start: nat, end: nat)
    requires start <= end && at + 16 * end <= |data|
    ensures Slice(data, at + 16 * start, at + 16 * end) == Flatten(Points(data, at + 16 * start, end - start))
  {
    PointsAreTheSlice(data, at + 16 * start, end - start);
    SliceWithin(data, at + 16 * start, at + 16 * end);
  }

  lemma LinesNext(parts: seq<Part>, part: Part)
    ensures Lines(parts + [part]) == if |part| < 2 then Lines(parts) else Lines(parts) + [part]
  {
    assert (parts + [part])[..|parts|] == parts;
  }

  /** Copying slices writes the same bytes as decoding the parts and encoding them again. */
  lemma {:induction false} CopiedAreLines(content: seq<Byte>, n: nat)
    requires WellFormed(content) && n <= NumParts(content)
    ensures var lines := Lines(Parts(content, n));
            Copied(content, n) == Copy(|lines|, LineStrings(lines))
  {
    if n > 0 {
      var before, part := Parts(content, n - 1), NextPart(content, n - 1);
      CopiedAreLines(content, n - 1);
      CopiedNext(content, n - 1);
      CopyIsDecodeThenEncode(Copied(content, n - 1), content, n - 1);
      LinesNext(before, part);
      if |part| >= 2 {
        LineStringsSnoc(Lines(before), part);
      }
    }
  }

  /** On every well-formed record the encoder yields the multi-line string of the decoded parts
      that are lines, or nothing exactly when no part is one. */
  lemma EncoderIsDecodeThenEncode(content: seq<Byte>)
    requires WellFormed(content)
    ensures var lines := Lines(Parts(content, NumParts(content)));
            PolylineWkb(content) == Ok(if lines == [] then None else Some(WkbMultiLineString(lines)))
  {
    CopiedAreLines(content, NumParts(content));
  }

  /** What a reader of the encoder's output sees. */
  lemma EncodedReadsBack(content: seq<Byte>)
    requires WellFormed(content) && PolylineWkb(content).value.Some?
    ensures ParseMultiLineString(PolylineWkb(content).value.value) == Some(Lines(Parts(content, NumParts(content))))
  {
    EncoderIsDecodeThenEncode(content);
    WkbRoundTrip(Lines(Parts(content, NumParts(content))));
  }

  // ---------------------------------------------------------------------------------------------
  // Writing a record
  // ---------------------------------------------------------------------------------------------

  /** Points in the first `n` parts. */
  function PointsBefore(parts: seq<Part>, n: nat): (count: nat)
    requires n <= |parts|
  {
    if n == 0 then 0 else PointsBefore(parts, n - 1) + |parts[n - 1]|
  }

  lemma {:induction false} PointsBeforeAscends(parts: seq<Part>, m: nat, n: nat)
    requires m <= n <= |parts|
    ensures PointsBefore(parts, m) <= PointsBefore(parts, n)
  {
    if m < n { PointsBeforeAscends(parts, m, n - 1); }
  }

  ghost predicate Writable(parts: seq<Part>) {
    |parts| < TWO_31 && PointsBefore(parts, |parts|) < TWO_31
  }

  /** The starts of the first `n` parts. */
  function Starts(parts: seq<Part>, n: nat): (bytes: seq<Byte>)
    requires Writable(parts) && n <= |parts|
    ensures |bytes| == 4 * n
  {
    if n == 0 then [] else
    PointsBeforeAscends(parts, n - 1, |parts|);
    Starts(parts, n - 1) + Le32(PointsBefore(parts, n - 1))
  }

  /** The points of the first `n` parts. */
  function AllPoints(parts: seq<Part>, n: nat): (bytes: seq<Byte>)
    requires n <= |parts|
    ensures |bytes| == 16 * PointsBefore(parts, n)
  {
    if n == 0 then [] else AllPoints(parts, n - 1) + Flatten(parts[n - 1])
  }

  /** Shape type, box and counts. */
  function Preamble(box: seq<Byte>, parts: nat, points: nat): (bytes: seq<Byte>)
    requires |box| == 32 && parts < TWO_31 && points < TWO_31
    ensures |bytes| == 44
  {
    Le32(POLYLINE_SHAPE) + box + Le32(parts) + Le32(points)
  }

  /** PolyLine record contents as the format lays them out. */
  function PolylineContent(box: seq<Byte>, parts: seq<Part>): (content: seq<Byte>)
    requires |box| == 32 && Writable(parts)
    ensures |content| == 44 + 4 * |parts| + 16 * PointsBefore(parts, |parts|)
  {
    Preamble(box, |parts|, PointsBefore(parts, |parts|)) + Starts(parts, |parts|) + AllPoints(parts, |parts|)
  }

  lemma PreambleReadsBack(box: seq<Byte>, parts: nat, points: nat, content: seq<Byte>)
    requires |box| == 32 && parts < TWO_31 && points < TWO_31 && HasAt(content, 0, Preamble(box, parts, points))
    ensures I32At(content, 0) == POLYLINE_SHAPE && I32At(content, 36) == parts && I32At(content, 40) == points
  {
    var preamble := Preamble(box, parts, points);
    HasFirst(Le32(POLYLINE_SHAPE), box);
    HasFirst(Le32(POLYLINE_SHAPE) + box, Le32(parts));
    HasFirst(Le32(POLYLINE_SHAPE) + box + Le32(parts), Le32(points));
    HasInside(Le32(POLYLINE_SHAPE) + box + Le32(parts), 0, Le32(POLYLINE_SHAPE) + box, 0, Le32(POLYLINE_SHAPE));
    HasInside(preamble, 0, Le32(POLYLINE_SHAPE) + box + Le32(parts), 0, Le32(POLYLINE_SHAPE));
    HasMiddle(Le32(POLYLINE_SHAPE) + box, Le32(parts), Le32(points));
    HasLast(Le32(POLYLINE_SHAPE) + box + Le32(parts), Le32(points));
    HasInside(content, 0, preamble, 0, Le32(POLYLINE_SHAPE));
    HasInside(content, 0, preamble, 36, Le32(parts));
    HasInside(content, 0, preamble, 40, Le32(points));
    ReadLe32(content, 0, POLYLINE_SHAPE);
    ReadLe32(content, 36, parts);
    ReadLe32(content, 40, points);
  }

  /** Record contents with the counts, starts and points of `parts` in their places. */
  ghost predicate LaidOut(content: seq<Byte>, parts: seq<Part>)
    requires Writable(parts)
  {
    && Unpackable(content) && NumParts(content) == |parts|
    && NumPoints(content) == PointsBefore(parts, |parts|)
    && HasAt(content, 44, Starts(parts, |parts|))
    && HasAt(content, 44 + 4 * |parts|, AllPoints(parts, |parts|))
  }

  lemma ContentIsLaidOut(box: seq<Byte>, parts: seq<Part>)
    requires |box| == 32 && Writable(parts)
    ensures I32At(PolylineContent(box, parts), 0) == POLYLINE_SHAPE
    ensures LaidOut(PolylineContent(box, parts), parts)
  {
    var preamble := Preamble(box, |parts|, PointsBefore(parts, |parts|));
    Layout(preamble, Starts(parts, |parts|), AllPoints(parts, |parts|));
    PreambleReadsBack(box, |parts|, PointsBefore(parts, |parts|), PolylineContent(box, parts));
  }

  lemma {:induction false} StartsAt(parts: seq<Part>, n: nat, i: nat)
    requires Writable(parts) && i < n <= |parts|
    ensures PointsBefore(parts, i) < TWO_31 && HasAt(Starts(parts, n), 4 * i, Le32(PointsBefore(parts, i)))
    decreases n
  {
    PointsBeforeAscends(parts, n - 1, |parts|);
    var before, last := Starts(parts, n - 1), Le32(PointsBefore(parts, n - 1));
    if i == n - 1 {
      HasLast(before, last);
    } else {
      StartsAt(parts, n - 1, i);
      HasFirst(before, last);
      HasInside(Starts(parts, n), 0, before, 4 * i, Le32(PointsBefore(parts, i)));
    }
  }

  lemma StartReadsBack(content: seq<Byte>, parts: seq<Part>, i: nat)
    requires Writable(parts) && LaidOut(content, parts) && i < |parts|
    ensures StartOf(content, i) == PointsBefore(parts, i)
  {
    StartsAt(parts, |parts|, i);
    HasInside(content, 44, Starts(parts, |parts|), 4 * i, Le32(PointsBefore(parts, i)));
    ReadLe32(content, 44 + 4 * i, PointsBefore(parts, i));
  }

  lemma EndReadsBack(content: seq<Byte>, parts: seq<Part>, i: nat)
    requires Writable(parts) && LaidOut(content, parts) && i < |parts|
    ensures EndOf(content, i) == PointsBefore(parts, i + 1)
  {
    if i + 1 < |parts| {
      StartReadsBack(content, parts, i + 1);
    }
  }

  lemma {:induction false} PartInAllPoints(parts: seq<Part>, n: nat, i: nat)
    requires i < n <= |parts|
    ensures HasAt(AllPoints(parts, n), 16 * PointsBefore(parts, i), Flatten(parts[i]))
    decreases n
  {
    var before, last := AllPoints(parts, n - 1), Flatten(parts[n - 1]);
    if i == n - 1 {
      HasLast(before, last);
    } else {
      PartInAllPoints(parts, n - 1, i);
      HasFirst(before, last);
      HasInside(AllPoints(parts, n), 0, before, 16 * PointsBefore(parts, i), Flatten(parts[i]));
    }
  }

  lemma {:induction false} PointsOfFlatten(data: seq<Byte>, at: nat, part: Part)
    requires HasAt(data, at, Flatten(part))
    ensures Points(data, at, |part|) == part
    decreases |part|
  {
    if part != [] {
      var bytes := Flatten(part);
      HasFirst(part[0], Flatten(part[1..]));
      HasLast(part[0], Flatten(part[1..]));
      HasInside(data, at, bytes, 0, part[0]);
      HasInside(data, at, bytes, 16, Flatten(part[1..]));
      PointsOfFlatten(data, at + 16, part[1..]);
    }
  }

  lemma LaidOutIsWellFormed(content: seq<Byte>, parts: seq<Part>)
    requires Writable(parts) && LaidOut(content, parts)
    ensures WellFormed(content)
  {
    forall i: nat | i < |parts| ensures 0 <= StartOf(content, i) <= EndOf(content, i) <= NumPoints(content) {
      StartReadsBack(content, parts, i);
      EndReadsBack(content, parts, i);
      PointsBeforeAscends(parts, i + 1, |parts|);
    }
  }

  lemma LaidOutPart(content: seq<Byte>, parts: seq<Part>, i: nat)
    requires Writable(parts) && LaidOut(content, parts) && WellFormed(content) && i < |parts|
    ensures NextPart(content, i) == parts[i]
  {
    var from := PointsBefore(parts, i);
    StartReadsBack(content, parts, i);
    EndReadsBack(content, parts, i);
    PointsOfPart(content, PointsAt(content), parts, i);
    NextPartIs(content, i, from, parts[i]);
  }

  lemma PointsOfPart(content: seq<Byte>, at: nat, parts: seq<Part>, i: nat)
    requires i < |parts| && HasAt(content, at, AllPoints(parts, |parts|))
    ensures at + 16 * PointsBefore(parts, i) + 16 * |parts[i]| <= |content|
    ensures Points(content, at + 16 * PointsBefore(parts, i), |parts[i]|) == parts[i]
  {
    PartInAllPoints(parts, |parts|, i);
    PartInside(content, at, AllPoints(parts, |parts|), 16 * PointsBefore(parts, i), parts[i]);
  }

  lemma NextPartIs(content: seq<Byte>, i: nat, from: nat, part: Part)
    requires WellFormed(content) && i < NumParts(content)
    requires StartOf(content, i) == from && EndOf(content, i) == from + |part|
    requires PointsAt(content) + 16 * from + 16 * |part| <= |content|
    requires Points(content, PointsAt(content) + 16 * from, |part|) == part
    ensures NextPart(content, i) == part
  { }

  lemma PartInside(content: seq<Byte>, at: nat, points: seq<Byte>, from: nat, part: Part)
    requires HasAt(content, at, points) && HasAt(points, from, Flatten(part))
    ensures at + from + 16 * |part| <= |content| && Points(content, at + from, |part|) == part
  {
    HasInside(content, at, points, from, Flatten(part));
    PointsOfFlatten(content, at + from, part);
  }

  lemma PrefixSnoc<X>(s: seq<X>, n: nat)
    requires n < |s|
    ensures s[..n + 1] == s[..n] + [s[n]]
  { }

  lemma {:induction false} PartsAre(content: seq<Byte>, parts: seq<Part>, n: nat)
    requires WellFormed(content) && n <= |parts| && n <= NumParts(content)
    requires forall i: nat :: i < n ==> NextPart(content, i) == parts[i]
    ensures Parts(content, n) == parts[..n]
    decreases n
  {
    if n > 0 {
      PartsAre(content, parts, n - 1);
      assert NextPart(content, n - 1) == parts[n - 1];
      PrefixSnoc(parts, n - 1);
    }
  }

  lemma LaidOutParts(content: seq<Byte>, parts: seq<Part>, n: nat)
    requires Writable(parts) && LaidOut(content, parts) && WellFormed(content) && n <= |parts|
    ensures Parts(content, n) == parts[..n]
  {
    forall i: nat | i < n ensures NextPart(content, i) == parts[i] { LaidOutPart(content, parts, i); }
    PartsAre(content, parts, n);
  }

  /** From the parts, through the record, to the binary. */
  lemma WrittenRecordEncodes(box: seq<Byte>, parts: seq<Part>)
    requires |box| == 32 && Writable(parts)
    ensures var lines := Lines(parts);
            && Encodable(lines)
            && PolylineWkb(PolylineContent(box, parts)) ==
                 Ok(if lines == [] then None else Some(WkbMultiLineString(lines)))
  {
    ContentIsLaidOut(box, parts);
    LaidOutEncodes(PolylineContent(box, parts), parts);
  }

  lemma LaidOutEncodes(content: seq<Byte>, parts: seq<Part>)
    requires Writable(parts) && LaidOut(content, parts)
    ensures var lines := Lines(parts);
            && Encodable(lines)
            && PolylineWkb(content) == Ok(if lines == [] then None else Some(WkbMultiLineString(lines)))
  {
    LaidOutIsWellFormed(content, parts);
    LaidOutParts(content, parts, |parts|);
    assert parts[..|parts|] == parts;
    EncoderIsDecodeThenEncode(content);
  }

  // ---------------------------------------------------------------------------------------------
  // The file
  // ---------------------------------------------------------------------------------------------

  function WkbPoint(p: Coordinates): seq<Byte> { [1] + Le32(1) + p }

  /** One record: nothing for a null shape, the binary for a point or a line. */
  function Decoded(content: seq<Byte>): Result<Option<seq<Byte>>> {
    if |content| < 4 then Err(StructError) else
    var kind := I32At(content, 0);
    if kind == NULL_SHAPE then Ok(None)
    else if kind == POINT_SHAPE then
      if |content| < 20 then Err(StructError) else Ok(Some(WkbPoint(content[4..20])))
    else if kind == POLYLINE_SHAPE then PolylineWkb(content)
    else Err(UnexpectedType)
  }

  lemma KindIsRead(kind: nat, rest: seq<Byte>)
    requires kind < TWO_31
    ensures I32At(Le32(kind) + rest, 0) == kind && (Le32(kind) + rest)[4..] == rest
  {
    HasFirst(Le32(kind), rest);
    ReadLe32(Le32(kind) + rest, 0, kind);
  }

  lemma PointBytes(p: Coordinates)
    ensures WkbPoint(p) == [1, 1, 0, 0, 0] + p
  {
    assert [1] + Le32(1) == [1, 1, 0, 0, 0];
  }

  /** Records of the other kinds: nothing for a null shape, byte order and kind before the coordinates of a
      point, and an error for anything else. */
  lemma OtherKinds(kind: nat, rest: seq<Byte>)
    requires kind < TWO_31
    ensures var shape := Decoded(Le32(kind) + rest);
            && (kind == 0 ==> shape == Ok(None))
            && (kind == 1 ==> shape == if |rest| < 16 then Err(StructError) else Ok(Some([1, 1, 0, 0, 0] + rest[..16])))
            && (kind != 0 && kind != 1 && kind != 3 ==> shape == Err(UnexpectedType))
  {
    KindIsRead(kind, rest);
    var content := Le32(kind) + rest;
    if kind == 1 && |rest| >= 16 {
      assert content[4..20] == content[4..][..16];
      PointBytes(rest[..16]);
    }
  }

  /** The shapes yielded before the end of the file, or before an error. */
  datatype Reading = Reading(shapes: seq<Option<seq<Byte>>>, error: Option<Error>)

  /** How a record's content becomes a shape. */
  type Decoder = seq<Byte> -> Result<Option<seq<Byte>>>

  /** A negative length leaves nothing to unpack, as long as the record does not end before the file begins. */
  function BackwardError(offset: nat, length: int): Error {
    if offset + 8 + length >= 0 then StructError else BeforeTheFile
  }

  /** The records from `offset` on. */
  function ReadFrom(decode: Decoder, data: seq<Byte>, offset: nat): Reading
    decreases |data| - offset
  {
    if offset + 8 > |data| then Reading([], None) else
    var length := BigI32At(data, offset + 4) * 2;
    if length < 0 then Reading([], Some(BackwardError(offset, length))) else
    match decode(Slice(data, offset + 8, offset + 8 + length))
    case Err(e) => Reading([], Some(e))
    case Ok(shape) =>
      var rest := ReadFrom(decode, data, offset + 8 + length);
      Prepend([shape], rest)
  }

  /** Shapes yielded before the rest is read. */
  function Prepend(shapes: seq<Option<seq<Byte>>>, rest: Reading): Reading {
    Reading(shapes + rest.shapes, rest.error)
  }

  lemma PrependTwice(shapes: seq<Option<seq<Byte>>>, shape: Option<seq<Byte>>, rest: Reading)
    ensures Prepend(shapes, Prepend([shape], rest)) == Prepend(shapes + [shape], rest)
  { }

  function HeaderError(data: seq<Byte>): Option<Error> {
    if |data| < 100 || BigI32At(data, 0) != 9994 then Some(InvalidHeader)
    else if I32At(data, 32) != POINT_SHAPE && I32At(data, 32) != POLYLINE_SHAPE then Some(UnsupportedType)
    else None
  }

  /** A file begins with the number 9994, the most significant byte first, and tells at byte 32 that it holds
      points or lines. */
  lemma HeaderMeans(data: seq<Byte>, number: nat, middle: seq<Byte>, kind: nat, rest: seq<Byte>)
    requires number < TWO_31 && kind < TWO_31 && |middle| == 28
    requires data == Be32(number) + middle + Le32(kind) + rest
    ensures HeaderError(data) ==
              if |rest| < 64 || number != 9994 then Some(InvalidHeader)
              else if kind == 1 || kind == 3 then None else Some(UnsupportedType)
  {
    HasFirst(Be32(number), middle + Le32(kind) + rest);
    assert data == Be32(number) + (middle + Le32(kind) + rest);
    HasMiddle(Be32(number) + middle, Le32(kind), rest);
    ReadBe32(data, 0, number);
    ReadLe32(data, 32, kind);
  }

  method ReadShapes(data: seq<Byte>) returns (r: Reading)
    ensures r == if HeaderError(data).Some? then Reading([], HeaderError(data)) else ReadFrom(Decoded, data, 100)
  {
    var error := HeaderError(data);
    if error.Some? {
      return Reading([], error);
    }
    r := ReadRecords(Decoded, data);
  }

  lemma ReadNext(decode: Decoder, data: seq<Byte>, offset: nat)
    requires offset + 8 <= |data|
    ensures var length := BigI32At(data, offset + 4) * 2;
            ReadFrom(decode, data, offset) ==
            if length < 0 then Reading([], Some(BackwardError(offset, length))) else
            var shape := decode(Slice(data, offset + 8, offset + 8 + length));
            if shape.Err? then Reading([], Some(shape.error))
            else Prepend([shape.value], ReadFrom(decode, data, offset + 8 + length))
  { }

  /** `shapes` have been yielded and reading stands at `offset`. */
  ghost predicate Yielded(decode: Decoder, data: seq<Byte>, shapes: seq<Option<seq<Byte>>>, offset: nat) {
    ReadFrom(decode, data, 100) == Prepend(shapes, ReadFrom(decode, data, offset))
  }

  lemma YieldNext(decode: Decoder, data: seq<Byte>, shapes: seq<Option<seq<Byte>>>, offset: nat)
    requires Yielded(decode, data, shapes, offset)
    ensures |data| < offset + 8 ==> ReadFrom(decode, data, 100) == Reading(shapes, None)
    ensures |data| >= offset + 8 ==>
              var length := BigI32At(data, offset + 4) * 2;
              if length < 0
              then ReadFrom(decode, data, 100) == Reading(shapes, Some(BackwardError(offset, length))) else
              var shape := decode(Slice(data, offset + 8, offset + 8 + length));
              if shape.Err? then ReadFrom(decode, data, 100) == Reading(shapes, Some(shape.error))
              else Yielded(decode, data, shapes + [shape.value], offset + 8 + length)
  {
    if |data| >= offset + 8 {
      ReadNext(decode, data, offset);
      var length := BigI32At(data, offset + 4) * 2;
      if length >= 0 {
        var shape := decode(Slice(data, offset + 8, offset + 8 + length));
        if shape.Ok? {
          PrependTwice(shapes, shape.value, ReadFrom(decode, data, offset + 8 + length));
        }
      }
    }
  }

  lemma YieldStart(decode: Decoder, data: seq<Byte>)
    ensures Yielded(decode, data, [], 100)
  {
    assert [] + ReadFrom(decode, data, 100).shapes == ReadFrom(decode, data, 100).shapes;
  }

  method ReadRecords(decode: Decoder, data: seq<Byte>) returns (r: Reading)
    ensures r == ReadFrom(decode, data, 100)
  {
    var offset: nat := 100;
    var shapes: seq<Option<seq<Byte>>> := [];
    YieldStart(decode, data);
    while offset + 8 <= |data|
      invariant Yielded(decode, data, shapes, offset)
      decreases |data| - offset
    {
      YieldNext(decode, data, shapes, offset);
      var length := BigI32At(data, offset + 4) * 2;
      if length < 0 {
        return Reading(shapes, Some(BackwardError(offset, length)));
      }
      var shape := decode(Slice(data, offset + 8, offset + 8 + length));
      if shape.Err? {
        return Reading(shapes, Some(shape.error));
      }
      shapes := shapes + [shape.value];
      offset := offset + 8 + length;
    }
    YieldNext(decode, data, shapes, offset);
    return Reading(shapes, None);
  }

  /** A record as the format frames it: its number and its length in 16-bit words. */
  function Record(number: nat, content: seq<Byte>): (bytes: seq<Byte>)
    requires number < TWO_32 && |content| / 2 < TWO_31
    ensures |bytes| == 8 + |content|
  {
    Be32(number) + Be32(|content| / 2) + content
  }

  ghost predicate Readable(decode: Decoder, content: seq<Byte>) {
    |content| % 2 == 0 && |content| / 2 < TWO_31 && decode(content).Ok?
  }

  ghost predicate AllReadable(decode: Decoder, contents: seq<seq<Byte>>) {
    forall i :: 0 <= i < |contents| ==> Readable(decode, contents[i])
  }

  ghost function Records(decode: Decoder, contents: seq<seq<Byte>>, number: nat): seq<Byte>
    requires number + |contents| <= TWO_32 && AllReadable(decode, contents)
    decreases |contents|
  {
    if contents == [] then [] else Record(number, contents[0]) + Records(decode, contents[1..], number + 1)
  }

  ghost function Shapes(decode: Decoder, contents: seq<seq<Byte>>): (shapes: seq<Option<seq<Byte>>>)
    requires AllReadable(decode, contents)
    ensures |shapes| == |contents| && forall i :: 0 <= i < |contents| ==> Ok(shapes[i]) == decode(contents[i])
    decreases |contents|
  {
    if contents == [] then [] else [decode(contents[0]).value] + Shapes(decode, contents[1..])
  }

  /** From `at` on the data holds records with these contents, and then too little for another. */
  ghost predicate HoldsRecords(data: seq<Byte>, at: nat, contents: seq<seq<Byte>>)
    decreases |contents|
  {
    if contents == [] then |data| < at + 8
    else HoldsRecord(data, at, contents[0]) && HoldsRecords(data, at + 8 + |contents[0]|, contents[1..])
  }

  lemma RecordFields(data: seq<Byte>, at: nat, number: nat, content: seq<Byte>)
    requires number < TWO_32 && |content| % 2 == 0 && |content| / 2 < TWO_31 && HasAt(data, at, Record(number, content))
    ensures HoldsRecord(data, at, content)
  {
    var words := |content| / 2;
    Layout(Be32(number), Be32(words), content);
    HasInside(data, at, Record(number, content), 4, Be32(words));
    HasInside(data, at, Record(number, content), 8, content);
    ReadBe32(data, at + 4, words);
  }

  /** A record's fields stand at `at`. */
  ghost predicate HoldsRecord(data: seq<Byte>, at: nat, content: seq<Byte>) {
    && at + 8 + |content| <= |data|
    && BigI32At(data, at + 4) * 2 == |content|
    && data[at + 8..at + 8 + |content|] == content
  }

  lemma {:induction false} RecordsAreHeld(decode: Decoder, data: seq<Byte>, at: nat, contents: seq<seq<Byte>>,
                                          number: nat)
    requires number + |contents| <= TWO_32 && AllReadable(decode, contents)
    requires HasAt(data, at, Records(decode, contents, number)) && |data| < at + |Records(decode, contents, number)| + 8
    ensures HoldsRecords(data, at, contents)
    decreases |contents|
  {
    if contents != [] {
      var first, rest := Record(number, contents[0]), Records(decode, contents[1..], number + 1);
      assert Readable(decode, contents[0]);
      HasBoth(data, at, first, rest);
      RecordFields(data, at, number, contents[0]);
      RecordsAreHeld(decode, data, at + 8 + |contents[0]|, contents[1..], number + 1);
    }
  }

  /** Any records after any prefix are read back one by one, in order; a tail too short for another
      record is ignored. */
  lemma {:induction false} RecordsReadBack(decode: Decoder, data: seq<Byte>, at: nat, contents: seq<seq<Byte>>)
    requires AllReadable(decode, contents) && HoldsRecords(data, at, contents)
    ensures ReadFrom(decode, data, at) == Reading(Shapes(decode, contents), None)
    decreases |contents|
  {
    if contents != [] {
      assert Readable(decode, contents[0]);
      SliceWithin(data, at + 8, at + 8 + |contents[0]|);
      ReadNext(decode, data, at);
      RecordsReadBack(decode, data, at + 8 + |contents[0]|, contents[1..]);
      ShapesNext(decode, contents);
    }
  }

  lemma ShapesNext(decode: Decoder, contents: seq<seq<Byte>>)
    requires AllReadable(decode, contents) && contents != []
    ensures Reading(Shapes(decode, contents), None) ==
              Prepend([decode(contents[0]).value], Reading(Shapes(decode, contents[1..]), None))
  { }

  /** A file of readable records yields one shape per record, in file order. */
  lemma FileReadsBack(decode: Decoder, header: seq<Byte>, contents: seq<seq<Byte>>, tail: seq<Byte>)
    requires |header| == 100 && HeaderError(header).None? && |tail| < 8 && 1 + |contents| <= TWO_32
    requires AllReadable(decode, contents)
    ensures var data := header + Records(decode, contents, 1) + tail;
            HeaderError(data).None? && ReadFrom(decode, data, 100) == Reading(Shapes(decode, contents), None)
  {
    var data := header + Records(decode, contents, 1) + tail;
    HasMiddle(header, Records(decode, contents, 1), tail);
    RecordsAreHeld(decode, data, 100, contents, 1);
    RecordsReadBack(decode, data, 100, contents);
    SameHeader(header, data);
  }

  lemma SameHeader(header: seq<Byte>, data: seq<Byte>)
    requires |header| == 100 && header <= data
    ensures HeaderError(data) == HeaderError(header)
  {
    assert data[0..4] == header[0..4] && data[32..36] == header[32..36];
    SameField(data, header, 0);
    SameField(data, header, 32);
  }

  lemma SameField(data: seq<Byte>, other: seq<Byte>, at: nat)
    requires at + 4 <= |data| && at + 4 <= |other| && data[at..at + 4] == other[at..at + 4]
    ensures U32At(data, at) == U32At(other, at) && BigI32At(data, at) == BigI32At(other, at)
  {
    var a, b := data[at..at + 4], other[at..at + 4];
    assert forall k :: 0 <= k < 4 ==> data[at + k] == a[k] && other[at + k] == b[k];
  }

  /** A PolyLine record to be written. */
  datatype LineRecord = LineRecord(box: seq<Byte>, parts: seq<Part>)

  ghost predicate Storable(r: LineRecord) {
    |r.box| == 32 && Writable(r.parts) && 22 + 2 * |r.parts| + 8 * PointsBefore(r.parts, |r.parts|) < TWO_31
  }

  ghost predicate AllStorable(records: seq<LineRecord>) {
    forall i :: 0 <= i < |records| ==> Storable(records[i])
  }

  ghost function Contents(records: seq<LineRecord>): (contents: seq<seq<Byte>>)
    requires AllStorable(records)
    ensures |contents| == |records|
    ensures forall i :: 0 <= i < |records| ==> contents[i] == PolylineContent(records[i].box, records[i].parts)
  {
    seq(|records|, i requires 0 <= i < |records| => PolylineContent(records[i].box, records[i].parts))
  }

  /** What a record is to be read as. */
  ghost predicate IsShape(shape: Option<seq<Byte>>, parts: seq<Part>) {
    var lines := Lines(parts);
    Encodable(lines) && shape == if lines == [] then None else Some(WkbMultiLineString(lines))
  }

  lemma DecodedLine(content: seq<Byte>)
    requires |content| >= 4 && I32At(content, 0) == POLYLINE_SHAPE
    ensures Decoded(content) == PolylineWkb(content)
  { }

  lemma StoredIsReadable(r: LineRecord)
    requires Storable(r)
    ensures Readable(Decoded, PolylineContent(r.box, r.parts))
    ensures IsShape(Decoded(PolylineContent(r.box, r.parts)).value, r.parts)
  {
    StoredSize(r);
    StoredDecodes(r);
  }

  lemma StoredSize(r: LineRecord)
    requires Storable(r)
    ensures var size := |PolylineContent(r.box, r.parts)|; size % 2 == 0 && size / 2 < TWO_31
  { }

  lemma StoredDecodes(r: LineRecord)
    requires |r.box| == 32 && Writable(r.parts)
    ensures var shape := Decoded(PolylineContent(r.box, r.parts)); shape.Ok? && IsShape(shape.value, r.parts)
  {
    var content := PolylineContent(r.box, r.parts);
    ContentIsLaidOut(r.box, r.parts);
    DecodedLine(content);
    EncodedShape(content, r.parts, PolylineWkb(content));
  }

  lemma EncodedShape(content: seq<Byte>, parts: seq<Part>, wkb: Result<Option<seq<Byte>>>)
    requires Writable(parts) && LaidOut(content, parts) && wkb == PolylineWkb(content)
    ensures wkb.Ok? && IsShape(wkb.value, parts)
  {
    LaidOutEncodes(content, parts);
  }

  /** A file of PolyLine records reads back as the binaries of their parts, record by record. */
  lemma PolylineFileReadsBack(header: seq<Byte>, records: seq<LineRecord>, tail: seq<Byte>)
    requires |header| == 100 && HeaderError(header).None? && |tail| < 8 && 1 + |records| <= TWO_32 &&
              AllStorable(records)
    ensures AllReadable(Decoded, Contents(records))
    ensures var r := ReadFrom(Decoded, header + Records(Decoded, Contents(records), 1) + tail, 100);
            && r.error == None && |r.shapes| == |records|
            && forall i :: 0 <= i < |records| ==> IsShape(r.shapes[i], records[i].parts)
  {
    var contents := Contents(records);
    forall i | 0 <= i < |records|
      ensures Readable(Decoded, contents[i]) && IsShape(Decoded(contents[i]).value, records[i].parts)
    {
      StoredIsReadable(records[i]);
    }
    FileReadsBack(Decoded, header, contents, tail);
    var shapes := Shapes(Decoded, contents);
    forall i | 0 <= i < |records| ensures IsShape(shapes[i], records[i].parts) {
      assert Ok(shapes[i]) == Decoded(contents[i]);
    }
  }
}
