/** The segment scan `BinEdit.ContainsBluRayStartSegment`: a Blu-ray PGS
    payload is a run of segments, each a 1-byte type, a 2-byte big-endian
    length and that many bytes of body. The scan hops from header to header
    and reports whether one of them has type 0x80. */
module PgsSegments {
  import opened Basics

  /** The segment type the scan looks for. The source calls it `epochStart`;
      in the PGS segment-type table 0x80 is the end-of-display-set segment.
      The model keeps the literal value. */
  const EpochStart: byte := 0x80

  /** `BluRaySupParser.BigEndianInt16`, taken as `(b0 << 8) | b1`. */
  function BigEndianInt16(b0: byte, b1: byte): (v: int)
    ensures 0 <= v < 0x1_0000
    ensures v / 256 == b0 && v % 256 == b1
  {
    b0 * 256 + b1
  }

  /** Header plus body size of the segment whose header starts at `pos`. */
  function SegmentSize(buf: seq<byte>, pos: nat): (n: int)
    requires pos + 3 <= |buf|
    ensures 3 <= n < 3 + 0x1_0000
  {
    3 + BigEndianInt16(buf[pos + 1], buf[pos + 2])
  }

  /** The offsets of the segment headers met when hopping from `pos` to the
      end of the buffer: every header that still has its 3 bytes. */
  function SegmentOffsets(buf: seq<byte>, pos: nat): (offs: seq<nat>)
    ensures forall k :: 0 <= k < |offs| ==> pos <= offs[k] && offs[k] + 3 <= |buf|
    ensures |offs| > 0 ==> offs[0] == pos
    ensures |offs| == 0 <==> pos + 3 > |buf|
    decreases |buf| - pos
  {
    if pos + 3 > |buf| then []
    else [pos] + SegmentOffsets(buf, pos + SegmentSize(buf, pos))
  }

  /** The scan as a recursive predicate, so that other specifications can use it. */
  predicate ScanFrom(buf: seq<byte>, pos: nat)
    decreases |buf| - pos
  {
    pos + 3 <= |buf| && (buf[pos] == EpochStart || ScanFrom(buf, pos + SegmentSize(buf, pos)))
  }

  /** When the scan reports true, it names the visited header of type 0x80. */
  lemma {:induction false} ScanFromFindsVisitedHeader(buf: seq<byte>, pos: nat) returns (k: nat)
    requires ScanFrom(buf, pos)
    ensures k < |SegmentOffsets(buf, pos)| && buf[SegmentOffsets(buf, pos)[k]] == EpochStart
    decreases |buf| - pos
  {
    var next := pos + SegmentSize(buf, pos);
    assert SegmentOffsets(buf, pos) == [pos] + SegmentOffsets(buf, next);
    if buf[pos] == EpochStart {
      k := 0;
    } else {
      var j := ScanFromFindsVisitedHeader(buf, next);
      k := j + 1;
    }
  }

  /** A visited header of type 0x80 makes the scan report true. */
  lemma {:induction false} VisitedHeaderStopsScan(buf: seq<byte>, pos: nat, k: nat)
    requires k < |SegmentOffsets(buf, pos)| && buf[SegmentOffsets(buf, pos)[k]] == EpochStart
    ensures ScanFrom(buf, pos)
    decreases |buf| - pos
  {
    var next := pos + SegmentSize(buf, pos);
    assert SegmentOffsets(buf, pos) == [pos] + SegmentOffsets(buf, next);
    if k > 0 {
      VisitedHeaderStopsScan(buf, next, k - 1);
    }
  }

  /** The scan reports true exactly when one of the visited headers has type 0x80. */
  lemma ScanFromIffVisitedHeader(buf: seq<byte>, pos: nat)
    ensures ScanFrom(buf, pos) <==>
      exists k :: 0 <= k < |SegmentOffsets(buf, pos)| && buf[SegmentOffsets(buf, pos)[k]] == EpochStart
  {
    if ScanFrom(buf, pos) {
      var k := ScanFromFindsVisitedHeader(buf, pos);
    }
    forall k | 0 <= k < |SegmentOffsets(buf, pos)| && buf[SegmentOffsets(buf, pos)[k]] == EpochStart
      ensures ScanFrom(buf, pos)
    {
      VisitedHeaderStopsScan(buf, pos, k);
    }
  }

  /** `ContainsBluRayStartSegment`: walks the segment headers from offset 0
      while a whole header fits and stops at the first one of type 0x80. */
  method ContainsBluRayStartSegment(buffer: seq<byte>) returns (found: bool)
    ensures found <==>
      exists k :: 0 <= k < |SegmentOffsets(buffer, 0)| && buffer[SegmentOffsets(buffer, 0)[k]] == EpochStart
    ensures found == ScanFrom(buffer, 0)
  {
    ScanFromIffVisitedHeader(buffer, 0);
    var position: nat := 0;
    while position + 3 <= |buffer|
      invariant ScanFrom(buffer, 0) == ScanFrom(buffer, position)
      decreases |buffer| - position
    {
      var segmentType := buffer[position];
      if segmentType == EpochStart {
        return true;
      }
      var length := BigEndianInt16(buffer[position + 1], buffer[position + 2]) + 3;
      position := position + length;
    }
    return false;
  }

  /** A payload too short to hold one segment header never reports 0x80. */
  lemma ShortPayloadHasNoEndSegment(buf: seq<byte>)
    requires |buf| < 3
    ensures !ScanFrom(buf, 0)
  {
  }

  /** The worked example: a type-0x81 segment of length 2 spans 5 bytes, so
      the next header is at offset 5, where the type is 0x80. */
  lemma {:induction false} WorkedExampleFindsOffsetFive()
    ensures SegmentOffsets([0x81, 0x00, 0x02, 0xAA, 0xAA, 0x80, 0x00, 0x00], 0) == [0, 5]
    ensures ScanFrom([0x81, 0x00, 0x02, 0xAA, 0xAA, 0x80, 0x00, 0x00], 0)
  {
    var buf: seq<byte> := [0x81, 0x00, 0x02, 0xAA, 0xAA, 0x80, 0x00, 0x00];
    assert SegmentSize(buf, 0) == 5;
    assert SegmentOffsets(buf, 5) == [5] + SegmentOffsets(buf, 8);
  }
}
