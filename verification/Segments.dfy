/** The uncompressed bulk-segment envelope around graphics data, and the size of a video frame in it. */
module Segments {
  import opened Arith
  import opened Bytes
  import opened Collections

  const MAX_SEGMENT: nat := 65535
  const MAX_MESSAGE: nat := 0x80_0000

  /** How many segments `n` bytes take. */
  function Count(n: nat): nat { (n + MAX_SEGMENT - 1) / MAX_SEGMENT }

  function Parts(d: seq<byte>): seq<byte> {
    if d == [] then []
    else
      var size := Min(MAX_SEGMENT, |d|);
      ToLe(size + 1, 4) + [4] + d[..size] + Parts(d[size..])
  }

  function Segmented(d: seq<byte>): seq<byte> {
    if |d| <= MAX_SEGMENT then [0xe0, 4] + d
    else [0xe1] + ToLe(Count(|d|), 2) + ToLe(|d|, 4) + Parts(d)
  }

  /** What a client makes of `count` segments. */
  function ReadParts(p: seq<byte>, count: nat): Option<seq<byte>> {
    if count == 0 then if p == [] then Some([]) else None
    else if |p| < 5 then None
    else
      var size := FromLe(p[..4]);
      if size < 1 || size > MAX_SEGMENT + 1 || p[4] != 4 || |p| < 4 + size then None
      else
        match ReadParts(p[4 + size..], count - 1)
        case None => None
        case Some(rest) => Some(p[5..4 + size] + rest)
  }

  /** What a client makes of an envelope (MS-RDPEGFX section 2.2.5.1, uncompressed segments only). */
  function Unsegmented(p: seq<byte>): Option<seq<byte>> {
    if |p| >= 2 && p[0] == 0xe0 && p[1] == 4 then Some(p[2..])
    else if |p| >= 7 && p[0] == 0xe1 then
      match ReadParts(p[7..], FromLe(p[1..3]))
      case None => None
      case Some(d) => if |d| == FromLe(p[3..7]) then Some(d) else None
    else None
  }

  lemma CountStep(n: nat)
    requires n > 0
    ensures Count(n) == Count(n - Min(MAX_SEGMENT, n)) + 1
  {
  }

  lemma NoParts()
    ensures Count(0) == 0 && ReadParts([], 0) == Some([])
  {
  }

  lemma {:induction false} ReadPartsInverse(d: seq<byte>)
    ensures ReadParts(Parts(d), Count(|d|)) == Some(d)
    decreases |d|
  {
    NoParts();
    hide ReadParts, Count, ToLe;
    if d != [] {
      var size := Min(MAX_SEGMENT, |d|);
      CountStep(|d|);
      ReadPartsInverse(d[size..]);
      OnePart(d[..size], Parts(d[size..]), Count(|d|));
      assert d[..size] + d[size..] == d;
    }
  }

  /** Reading one segment, then the rest. */
  lemma OnePart(d: seq<byte>, rest: seq<byte>, count: nat)
    requires 1 <= |d| <= MAX_SEGMENT && count > 0 && ReadParts(rest, count - 1).Some?
    ensures ReadParts(ToLe(|d| + 1, 4) + [4] + d + rest, count) == Some(d + ReadParts(rest, count - 1).value)
  {
    var size := |d| + 1;
    var p := ToLe(size, 4) + [4] + d + rest;
    Pow256Values();
    FromToLe(size, 4);
    assert p[..4] == ToLe(size, 4) && p[4] == 4 && p[5..4 + size] == d && p[4 + size..] == rest;
    hide FromLe, ToLe;
  }

  lemma {:induction false} PartsLength(d: seq<byte>)
    ensures |Parts(d)| == |d| + 5 * Count(|d|)
    decreases |d|
  {
    if d != [] {
      var size := Min(MAX_SEGMENT, |d|);
      CountStep(|d|);
      PartsLength(d[size..]);
    }
  }

  lemma {:induction false} ReadPartsBound(p: seq<byte>, count: nat)
    ensures var r := ReadParts(p, count); r.Some? ==> |r.value| <= count * MAX_SEGMENT
    decreases count
  {
    if count > 0 && |p| >= 5 {
      var size := FromLe(p[..4]);
      if 1 <= size <= MAX_SEGMENT + 1 && |p| >= 4 + size {
        ReadPartsBound(p[4 + size..], count - 1);
      }
    }
  }

  /** The envelope opens to what was put in, exactly as far as its 16-bit segment count reaches. */
  lemma SegmentedInverse(d: seq<byte>)
    ensures Unsegmented(Segmented(d)) == Some(d) <==> |d| <= MAX_SEGMENT * MAX_SEGMENT
  {
    var p := Segmented(d);
    if |d| <= MAX_SEGMENT {
      assert p[2..] == d;
    } else {
      Envelope(ToLe(Count(|d|), 2), ToLe(|d|, 4), Parts(d));
      Pow256Values();
      if |d| <= MAX_SEGMENT * MAX_SEGMENT {
        FromToLe(Count(|d|), 2);
        FromToLe(|d|, 4);
        ReadPartsInverse(d);
      } else {
        FromLeBound(ToLe(Count(|d|), 2));
        ReadPartsBound(Parts(d), FromLe(ToLe(Count(|d|), 2)));
      }
    }
  }

  lemma Envelope(count: seq<byte>, total: seq<byte>, parts: seq<byte>)
    requires |count| == 2 && |total| == 4
    ensures var p := [0xe1] + count + total + parts; p[1..3] == count && p[3..7] == total && p[7..] == parts
  {
  }

  lemma {:induction false} FromLeBound(s: seq<byte>)
    ensures FromLe(s) < Pow256(|s|)
  {
    if s != [] {
      FromLeBound(s[1..]);
    }
  }

  /** Emits the segments one after the other. */
  method SegmentGraphics(data: seq<byte>) returns (output: seq<byte>)
    ensures output == Segmented(data)
  {
    if |data| <= MAX_SEGMENT {
      return [0xe0, 4] + data;
    }
    var count := (|data| + MAX_SEGMENT - 1) / MAX_SEGMENT;
    output := [0xe1] + ToLe(count, 2) + ToLe(|data|, 4);
    var rest := data;
    while rest != []
      invariant output + Parts(rest) == Segmented(data)
      decreases |rest|
    {
      var size := Min(MAX_SEGMENT, |rest|);
      ghost var part := ToLe(size + 1, 4) + [4] + rest[..size];
      assert output + (part + Parts(rest[size..])) == (output + part) + Parts(rest[size..]);
      assert output + (ToLe(size + 1, 4) + [4]) + rest[..size] == output + part;
      output := output + (ToLe(size + 1, 4) + [4]);
      output := output + rest[..size];
      rest := rest[size..];
    }
  }

  // A video frame.

  function Pdu(command: nat, payload: seq<byte>): seq<byte> {
    ToLe(command, 2) + [0, 0] + ToLe(8 + |payload|, 4) + payload
  }

  datatype Region = Region(left: nat, top: nat, right: nat, bottom: nat)

  function Rects(regions: seq<Region>): (r: seq<byte>)
    ensures |r| == 8 * |regions|
  {
    if regions == [] then []
    else
      var n := |regions| - 1;
      Rects(regions[..n]) + ToLe(regions[n].left, 2) + ToLe(regions[n].top, 2)
      + ToLe(regions[n].right, 2) + ToLe(regions[n].bottom, 2)
  }

  function Qualities(n: nat): (r: seq<byte>)
    ensures |r| == 2 * n
  {
    if n == 0 then [] else Qualities(n - 1) + [22, 100]
  }

  /** Start of frame, the coded picture with its repaint mask, end of frame. */
  function Frame(width: nat, height: nat, frameId: nat, timestamp: nat, video: seq<byte>,
                 regions: seq<Region>): seq<byte>
  {
    var mask := ToLe(|regions|, 4) + Rects(regions) + Qualities(|regions|);
    Pdu(0x0b, ToLe(timestamp, 4) + ToLe(frameId, 4))
    + Pdu(1, [0, 0] + ToLe(0x0b, 2) + [0x20] + [0, 0, 0, 0] + ToLe(width, 2) + ToLe(height, 2)
             + ToLe(|mask| + |video|, 4) + mask + video)
    + Pdu(0x0c, ToLe(frameId, 4))
  }

  lemma {:induction false} RectAt(regions: seq<Region>, k: nat)
    requires k < |regions|
    ensures var r := regions[k];
      Rects(regions)[8 * k..8 * k + 8] == ToLe(r.left, 2) + ToLe(r.top, 2) + ToLe(r.right, 2) + ToLe(r.bottom, 2)
    decreases |regions|
  {
    hide ToLe;
    var n := |regions| - 1;
    if k < n {
      RectAt(regions[..n], k);
      assert Rects(regions)[8 * k..8 * k + 8] == Rects(regions[..n])[8 * k..8 * k + 8];
    }
  }

  lemma {:induction false} QualityAt(n: nat, k: nat)
    requires k < n
    ensures Qualities(n)[2 * k] == 22 && Qualities(n)[2 * k + 1] == 100
  {
    if k < n - 1 {
      QualityAt(n - 1, k);
    }
  }

  /** A frame in bytes: its start, the header of the picture with rectangles, qualities and video, and its end. */
  lemma FrameBytes(width: nat, height: nat, frameId: nat, timestamp: nat, video: seq<byte>, regions: seq<Region>)
    ensures
      var n, v := |regions|, |video|;
      Frame(width, height, frameId, timestamp, video, regions)
      == [0x0b, 0, 0, 0, 16, 0, 0, 0] + (ToLe(timestamp, 4) + ToLe(frameId, 4))
         + (([1, 0, 0, 0] + ToLe(29 + 10 * n + v, 4) + [0, 0, 0x0b, 0, 0x20, 0, 0, 0, 0])
            + (ToLe(width, 2) + ToLe(height, 2) + ToLe(4 + 10 * n + v, 4))
            + (ToLe(n, 4) + Rects(regions) + Qualities(n) + video))
         + ([0x0c, 0, 0, 0, 12, 0, 0, 0] + ToLe(frameId, 4))
  {
    var n, v := |regions|, |video|;
    PictureBytes(width, height, ToLe(n, 4) + Rects(regions) + Qualities(n), video);
    EndBytes(timestamp, frameId);
    hide ToLe, Rects, Qualities, Pdu;
  }

  lemma PduBytes(command: byte, payload: seq<byte>)
    ensures Pdu(command, payload) == [command, 0, 0, 0] + ToLe(8 + |payload|, 4) + payload
  {
    Small(command);
    assert [command, 0] + [0, 0] == [command, 0, 0, 0];
    hide ToLe;
  }

  lemma PictureBytes(width: nat, height: nat, mask: seq<byte>, video: seq<byte>)
    ensures Pdu(1, [0, 0] + ToLe(0x0b, 2) + [0x20] + [0, 0, 0, 0] + ToLe(width, 2) + ToLe(height, 2)
                   + ToLe(|mask| + |video|, 4) + mask + video)
         == ([1, 0, 0, 0] + ToLe(25 + |mask| + |video|, 4) + [0, 0, 0x0b, 0, 0x20, 0, 0, 0, 0])
            + (ToLe(width, 2) + ToLe(height, 2) + ToLe(|mask| + |video|, 4)) + (mask + video)
  {
    Small(0x0b);
    hide ToLe, Pdu;
    PduBytes(1, [0, 0] + ToLe(0x0b, 2) + [0x20] + [0, 0, 0, 0] + ToLe(width, 2) + ToLe(height, 2)
                + ToLe(|mask| + |video|, 4) + mask + video);
  }

  lemma EndBytes(timestamp: nat, frameId: nat)
    ensures Pdu(0x0b, ToLe(timestamp, 4) + ToLe(frameId, 4))
         == [0x0b, 0, 0, 0, 16, 0, 0, 0] + (ToLe(timestamp, 4) + ToLe(frameId, 4))
    ensures Pdu(0x0c, ToLe(frameId, 4)) == [0x0c, 0, 0, 0, 12, 0, 0, 0] + ToLe(frameId, 4)
  {
    Small(16);
    Small(12);
    hide ToLe, Pdu;
    PduBytes(0x0b, ToLe(timestamp, 4) + ToLe(frameId, 4));
    PduBytes(0x0c, ToLe(frameId, 4));
    assert [0x0b, 0, 0, 0] + ToLe(16, 4) == [0x0b, 0, 0, 0, 16, 0, 0, 0];
    assert [0x0c, 0, 0, 0] + ToLe(12, 4) == [0x0c, 0, 0, 0, 12, 0, 0, 0];
  }

  lemma Small(n: byte)
    ensures ToLe(n, 2) == [n, 0] && ToLe(n, 4) == [n, 0, 0, 0]
  {
    assert ToLe(0, 1) == [0] && ToLe(0, 2) == [0] + ToLe(0, 1) && ToLe(0, 3) == [0] + ToLe(0, 2);
  }

  const SEGMENT_OVERHEAD: nat := 7 + 5 * ((MAX_MESSAGE + 65534) / 65535)

  /** The largest video payload that may be sent with a number of repaint rectangles. */
  function MaxPayload(rects: nat): int { MAX_MESSAGE - SEGMENT_OVERHEAD - 57 - 10 * rects }

  /** An accepted frame stays within the message limit, whatever the envelope adds to it. */
  lemma FrameFits(width: nat, height: nat, frameId: nat, timestamp: nat, video: seq<byte>, regions: seq<Region>)
    requires |video| <= MaxPayload(|regions|)
    ensures |Segmented(Frame(width, height, frameId, timestamp, video, regions))| <= MAX_MESSAGE
  {
    var f := Frame(width, height, frameId, timestamp, video, regions);
    assert |f| == 57 + 10 * |regions| + |video|;
    PartsLength(f);
    assert Count(|f|) <= Count(MAX_MESSAGE);
  }

  /** Little is given away: the largest accepted frame makes a message five bytes short of 8 MiB. */
  lemma LargestFrame(width: nat, height: nat, frameId: nat, timestamp: nat, video: seq<byte>, regions: seq<Region>)
    requires |video| == MaxPayload(|regions|)
    ensures |Segmented(Frame(width, height, frameId, timestamp, video, regions))| == 8 * 1024 * 1024 - 5
  {
    var f := Frame(width, height, frameId, timestamp, video, regions);
    assert |f| == 57 + 10 * |regions| + |video|;
    PartsLength(f);
  }
}
