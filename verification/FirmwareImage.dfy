/** What a firmware image is made of, and that scripts/elrs_targets.py finds where it ends. */
module FirmwareImage {
  import opened ByteStrings
  import opened WireFormat
  import opened Trailer

  datatype Segment = Segment(address: Bytes, data: Bytes)

  ghost predicate Proper(segments: seq<Segment>)
  {
    forall i :: 0 <= i < |segments| ==> |segments[i].address| == 4 && |segments[i].data| < 0x1_0000_0000
  }

  /** A segment in the file: where it is loaded, its length, and its data. */
  ghost function Laid(s: Segment): (bytes: Bytes)
  {
    s.address + Le(|s.data|, 4) + s.data
  }

  ghost function AllLaid(segments: seq<Segment>): (bytes: Bytes)
  {
    if segments == [] then [] else Laid(segments[0]) + AllLaid(segments[1..])
  }

  /** The walk over the segments of an image ends behind the last of them ... */
  lemma {:induction false} WalkEndsBehind(image: Bytes, pos: nat, segments: seq<Segment>)
    requires Proper(segments) && pos <= |image| && AllLaid(segments) <= image[pos..]
    ensures Walk(image, pos, |segments|) == Success(pos + |AllLaid(segments)|)
    decreases |segments|
  {
    hide Le, FromLe;
    if segments != [] {
      var first, rest := Laid(segments[0]), AllLaid(segments[1..]);
      HeaderRead(image, pos, segments[0], rest);
      WalkEndsBehind(image, pos + |first|, segments[1..]);
    }
  }

  lemma HeaderRead(image: Bytes, pos: nat, s: Segment, rest: Bytes)
    requires Proper([s]) && pos <= |image| && Laid(s) + rest <= image[pos..]
    ensures |Laid(s)| == 8 + |s.data| && pos + |Laid(s)| <= |image|
    ensures FromLe(image[pos + 4..pos + 8]) == |s.data|
    ensures rest <= image[pos + |Laid(s)|..]
  {
    hide Le, FromLe;
    assert |[s][0].address| == 4;
    var first := Laid(s);
    var tail := image[pos..];
    assert tail[4..8] == (first + rest)[4..8] == Le(|s.data|, 4);
    assert image[pos + 4..pos + 8] == tail[4..8];
    assert image[pos + |first|..] == tail[|first|..];
    assert tail[|first|..|first| + |rest|] == (first + rest)[|first|..] == rest;
    Widths();
    LeRoundTrip(|s.data|, 4);
  }

  /** ... and wherever a walk ends inside the file, what it went over are segments. */
  lemma {:induction false} WalkGoesOverSegments(image: Bytes, pos: nat, n: nat) returns (segments: seq<Segment>)
    requires Walk(image, pos, n).Success? && Walk(image, pos, n).value <= |image|
    ensures |segments| == n && Proper(segments)
    ensures pos <= Walk(image, pos, n).value && image[pos..Walk(image, pos, n).value] == AllLaid(segments)
    decreases n
  {
    hide Le, FromLe;
    segments := [];
    WalkGrows(image, pos, n);
    var end := Walk(image, pos, n).value;
    if n > 0 {
      var next := pos + 8 + FromLe(image[pos + 4..pos + 8]);
      var rest := WalkGoesOverSegments(image, next, n - 1);
      var s := Segment(image[pos..pos + 4], image[pos + 8..next]);
      SegmentRead(image, pos, s);
      segments := [s] + rest;
      assert segments[1..] == rest;
      assert image[pos..end] == image[pos..next] + image[next..end];
    }
  }

  lemma SegmentRead(image: Bytes, pos: nat, s: Segment)
    requires pos + 8 <= |image| && pos + 8 + FromLe(image[pos + 4..pos + 8]) <= |image|
    requires s == Segment(image[pos..pos + 4], image[pos + 8..pos + 8 + FromLe(image[pos + 4..pos + 8])])
    ensures |s.data| < 0x1_0000_0000
    ensures image[pos..pos + 8 + |s.data|] == Laid(s)
  {
    hide Le, FromLe;
    Widths();
    FromLeRoundTrip(image[pos + 4..pos + 8]);
    assert Le(|s.data|, 4) == image[pos + 4..pos + 8];
  }

  /** An image of a header and segments, with anything behind it, ends where its last segment
      does, at the next multiple of 16, and behind the digest that follows. */
  lemma EndOfImage(head: Bytes, segments: seq<Segment>, rest: Bytes)
    requires Proper(segments) && |head| == 24 && head[0] == MAGIC && ToNat(head[1]) == |segments| != 2
    ensures FirmwareEnd(head + AllLaid(segments) + rest) == Success(RoundedUp(24 + |AllLaid(segments)|) + 32)
  {
    hide ToNat, ToByte, Walk, Laid, AllLaid;
    var image := head + AllLaid(segments) + rest;
    assert image[24..] == AllLaid(segments) + rest;
    assert image[0] == head[0] && image[1] == head[1];
    WalkEndsBehind(image, 24, segments);
  }

  /** An image of two segments is a boot loader for one that starts at 0x1000 and has no digest. */
  lemma EndOfBootImage(head: Bytes, segments: seq<Segment>, rest: Bytes)
    requires Proper(segments) && |head| == 0x1008 && head[0] == MAGIC && ToNat(head[1]) == 2
    requires ToNat(head[0x1001]) == |segments|
    ensures FirmwareEnd(head + AllLaid(segments) + rest) == Success(RoundedUp(0x1008 + |AllLaid(segments)|))
  {
    hide ToNat, ToByte, Walk, Laid, AllLaid;
    var image := head + AllLaid(segments) + rest;
    assert image[0x1008..] == AllLaid(segments) + rest;
    assert image[0] == head[0] && image[1] == head[1] && image[0x1001] == head[0x1001];
    WalkEndsBehind(image, 0x1008, segments);
  }
}
