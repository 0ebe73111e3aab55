/** Cutting a byte stream into frames, one byte at a time: what the two incremental
    parsers of lib/ff_core (msp_parser.cpp, ubx.cpp) have in common. */
module Framing {
  import opened ByteStrings

  /** What the bytes since the last frame can still become. */
  datatype Progress = Dead | Pending | Complete

  /** A frame format: the byte frames start with, how long their fixed header is, and
      what a string of bytes amounts to. */
  datatype Format = Format(start: Byte, header: nat, progress: Bytes -> Progress)

  /** Headers start with the start byte and hold it nowhere else; until a header is
      complete, what counts is whether the bytes are the beginning of one; and no frame
      ends before its header. */
  ghost predicate Sound(f: Format)
  {
    && f.header > 1
    && f.progress([]) == Pending && f.progress([f.start]) == Pending
    && (forall u :: 0 < |u| <= f.header && f.progress(u) == Pending ==>
          u[0] == f.start && forall i :: 0 < i < |u| ==> u[i] != f.start)
    && (forall u :: |u| <= f.header ==> f.progress(u) != Complete)
    && (forall u, k :: 0 <= k <= |u| <= f.header && f.progress(u) == Pending ==> f.progress(u[..k]) == Pending)
  }

  /** Behind a whole header nothing is given up before the frame is complete. */
  ghost predicate Steady(f: Format)
  {
    forall u, b :: |u| >= f.header && f.progress(u) == Pending ==> f.progress(u + [b]) != Dead
  }

  /** How `n` bytes stand to a frame of `whole` bytes. */
  function Against(n: nat, whole: nat): (p: Progress)
  {
    if n < whole then Pending else if n == whole then Complete else Dead
  }

  // ---- The scanner ---------------------------------------------------------------------

  /** The bytes kept after one more: a byte that does not fit may itself start a frame. */
  ghost function Advance(f: Format, t: Bytes, b: Byte): (t': Bytes)
  {
    match f.progress(t + [b])
    case Pending => t + [b]
    case Complete => []
    case Dead => if b == f.start then [b] else []
  }

  /** The bytes still in hand after a stream. */
  ghost function Rest(f: Format, s: Bytes): (t: Bytes)
  {
    if s == [] then [] else Advance(f, Rest(f, s[..|s| - 1]), s[|s| - 1])
  }

  /** The frames cut from a stream, in order, whatever their checksums. */
  ghost function Cut(f: Format, s: Bytes): (frames: seq<Bytes>)
  {
    if s == [] then []
    else
      var before, b := s[..|s| - 1], s[|s| - 1];
      var t := Rest(f, before);
      if f.progress(t + [b]) == Complete then Cut(f, before) + [t + [b]] else Cut(f, before)
  }

  lemma OneMore(f: Format, s: Bytes, b: Byte)
    ensures Rest(f, s + [b]) == Advance(f, Rest(f, s), b)
    ensures Cut(f, s + [b]) == if f.progress(Rest(f, s) + [b]) == Complete then Cut(f, s) + [Rest(f, s) + [b]] else Cut(f, s)
  {
    assert (s + [b])[..|s|] == s;
  }

  /** In sync the past does not matter. */
  lemma {:induction false} InSync(f: Format, a: Bytes, s: Bytes)
    requires Rest(f, a) == []
    ensures Rest(f, a + s) == Rest(f, s)
    ensures Cut(f, a + s) == Cut(f, a) + Cut(f, s)
  {
    hide Rest, Cut, Advance;
    if s == [] {
      assert a + s == a;
      Nothing(f);
    } else {
      var n := |s| - 1;
      InSync(f, a, s[..n]);
      OneMore(f, a + s[..n], s[n]);
      OneMore(f, s[..n], s[n]);
      assert a + s == (a + s[..n]) + [s[n]] && s == s[..n] + [s[n]];
    }
  }

  lemma Nothing(f: Format)
    ensures Rest(f, []) == [] && Cut(f, []) == []
  {}

  /** The bytes in hand are the last of the stream, and those given up came before. */
  lemma {:induction false} RestIsSuffix(f: Format, s: Bytes)
    ensures |Rest(f, s)| <= |s| && Rest(f, s) == s[|s| - |Rest(f, s)|..]
  {
    hide Rest, Advance;
    if s == [] {
      Nothing(f);
    } else {
      var n := |s| - 1;
      RestIsSuffix(f, s[..n]);
      assert s == s[..n] + [s[n]];
      OneMore(f, s[..n], s[n]);
      AdvanceIsSuffix(f, s[..n], Rest(f, s[..n]), s[n]);
    }
  }

  lemma AdvanceIsSuffix(f: Format, s: Bytes, t: Bytes, b: Byte)
    requires |t| <= |s| && t == s[|s| - |t|..]
    ensures var t' := Advance(f, t, b); |t'| <= |s| + 1 && t' == (s + [b])[|s| + 1 - |t'|..]
    ensures t + [b] == (s + [b])[|s| - |t|..]
  {}

  /** Where in the stream the frames cut from it end. */
  ghost function Ends(f: Format, s: Bytes): (ends: seq<nat>)
  {
    if s == [] then []
    else
      var before := s[..|s| - 1];
      if f.progress(Rest(f, before) + [s[|s| - 1]]) == Complete then Ends(f, before) + [|s|] else Ends(f, before)
  }

  /** Frame `k` lies in the stream where it ends, behind the frame before it. */
  ghost predicate InPlace(f: Format, s: Bytes, frames: seq<Bytes>, ends: seq<nat>, k: nat)
    requires k < |frames| == |ends|
  {
    && |frames[k]| <= ends[k] <= |s| && s[ends[k] - |frames[k]|..ends[k]] == frames[k]
    && f.progress(frames[k]) == Complete
    && (k > 0 ==> ends[k - 1] <= ends[k] - |frames[k]|)
  }

  ghost predicate AllInPlace(f: Format, s: Bytes, frames: seq<Bytes>, ends: seq<nat>)
  {
    |frames| == |ends| && forall k: nat :: k < |frames| ==> InPlace(f, s, frames, ends, k)
  }

  /** On any stream at all, the frames cut are complete pieces of it that do not overlap, in
      order, and the bytes in hand come after the last of them. */
  lemma {:induction false} CutsArePieces(f: Format, s: Bytes)
    ensures AllInPlace(f, s, Cut(f, s), Ends(f, s))
    ensures |Ends(f, s)| > 0 ==> Ends(f, s)[|Ends(f, s)| - 1] <= |s| - |Rest(f, s)|
  {
    hide Rest, Advance, InPlace, AllInPlace, Cut, Ends;
    if s == [] {
      NothingInPlace(f);
    } else {
      var n := |s| - 1;
      var before, t := s[..n], Rest(f, s[..n]);
      CutsArePieces(f, before);
      RestIsSuffix(f, before);
      assert s == before + [s[n]];
      OneMore(f, before, s[n]);
      OneMoreEnd(f, before, s[n]);
      AdvanceIsSuffix(f, before, t, s[n]);
      RestShrinks(f, t, s[n]);
      PiecesGoOn(f, before, s[n], t, Cut(f, before), Ends(f, before));
    }
  }

  lemma OneMoreEnd(f: Format, s: Bytes, b: Byte)
    ensures Ends(f, s + [b]) == if f.progress(Rest(f, s) + [b]) == Complete then Ends(f, s) + [|s| + 1] else Ends(f, s)
  {
    assert (s + [b])[..|s|] == s;
  }

  lemma NothingInPlace(f: Format)
    ensures Cut(f, []) == [] && Ends(f, []) == [] && AllInPlace(f, [], [], [])
  {}

  lemma PiecesGoOn(f: Format, s: Bytes, b: Byte, t: Bytes, frames: seq<Bytes>, ends: seq<nat>)
    requires AllInPlace(f, s, frames, ends) && (|ends| > 0 ==> ends[|ends| - 1] <= |s| - |t|)
    requires |t| <= |s| && t + [b] == (s + [b])[|s| - |t|..]
    ensures AllInPlace(f, s + [b], frames, ends)
    ensures f.progress(t + [b]) == Complete ==> AllInPlace(f, s + [b], frames + [t + [b]], ends + [|s| + 1])
  {
    var frames', ends' := frames + [t + [b]], ends + [|s| + 1];
    forall k: nat | k < |frames|
      ensures InPlace(f, s + [b], frames, ends, k) && InPlace(f, s + [b], frames', ends', k)
    {
      assert InPlace(f, s, frames, ends, k);
      assert (s + [b])[ends[k] - |frames[k]|..ends[k]] == s[ends[k] - |frames[k]|..ends[k]];
    }
    if f.progress(t + [b]) == Complete {
      assert InPlace(f, s + [b], frames', ends', |frames|) by {
        assert (s + [b])[|s| - |t|..] == (s + [b])[|s| - |t|..|s| + 1];
      }
    }
  }

  lemma RestShrinks(f: Format, t: Bytes, b: Byte)
    ensures f.progress(t + [b]) == Complete ==> Advance(f, t, b) == []
    ensures |Advance(f, t, b)| <= |t| + 1
  {}

  /** A whole frame and nothing more. */
  ghost predicate Framed(f: Format, frame: Bytes)
  {
    f.progress(frame) == Complete && forall k :: 0 <= k < |frame| ==> f.progress(frame[..k]) == Pending
  }

  lemma {:induction false} PrefixPending(f: Format, frame: Bytes, k: nat)
    requires k <= |frame|
    requires forall j :: 0 <= j <= k ==> f.progress(frame[..j]) == Pending
    ensures Rest(f, frame[..k]) == frame[..k] && Cut(f, frame[..k]) == []
  {
    hide Rest, Cut;
    if k == 0 {
      Nothing(f);
    } else {
      PrefixPending(f, frame, k - 1);
      OneMore(f, frame[..k - 1], frame[k - 1]);
      assert frame[..k] == frame[..k - 1] + [frame[k - 1]];
    }
  }

  /** From sync, a frame is cut at its last byte and leaves the scanner in sync. */
  lemma FrameIsCut(f: Format, frame: Bytes)
    requires Framed(f, frame) && |frame| > 0
    ensures Rest(f, frame) == [] && Cut(f, frame) == [frame]
  {
    hide Rest, Cut;
    var n := |frame| - 1;
    PrefixPending(f, frame, n);
    OneMore(f, frame[..n], frame[n]);
    assert frame == frame[..n] + [frame[n]];
  }

  // ---- Noise ----------------------------------------------------------------------------

  ghost predicate HeaderAt(f: Format, s: Bytes, i: nat)
  {
    i + f.header <= |s| && f.progress(s[i..i + f.header]) == Pending
  }

  ghost predicate HasHeader(f: Format, s: Bytes)
  {
    exists i: nat :: HeaderAt(f, s, i)
  }

  /** The last `k` bytes. */
  ghost function End(s: Bytes, k: nat): (u: Bytes)
    requires k <= |s|
    ensures |u| == k
  {
    s[|s| - k..]
  }

  lemma EndMore(s: Bytes, b: Byte, k: nat)
    requires k <= |s|
    ensures End(s + [b], k + 1) == End(s, k) + [b]
    ensures End(s + [b], k + 1)[..k] == End(s, k)
  {}

  /** `t` is the longest end of `s` that a header may begin with. */
  ghost predicate LongestStart(f: Format, s: Bytes, t: Bytes)
  {
    && |t| <= |s| && t == End(s, |t|) && |t| < f.header && f.progress(t) == Pending
    && forall k :: |t| < k <= |s| && k < f.header ==> f.progress(End(s, k)) != Pending
  }

  /** One more byte. A longer end cannot begin a header: without its last byte it would
      have been an end that does, and a shorter one would put the start byte inside. */
  lemma NoiseStep(f: Format, s: Bytes, t: Bytes, b: Byte)
    requires Sound(f) && LongestStart(f, s, t) && !HasHeader(f, s + [b])
    ensures LongestStart(f, s + [b], Advance(f, t, b))
  {
    hide Sound, HasHeader, LongestStart;
    StepEnd(f, s, t, b);
    var t' := Advance(f, t, b);
    forall k | |t'| < k <= |s| + 1 && k < f.header
      ensures f.progress(End(s + [b], k)) != Pending
    {
      NoLongerStart(f, s, t, b, k);
    }
    LongestIs(f, s + [b], t');
  }

  lemma LongestIs(f: Format, s: Bytes, t: Bytes)
    requires |t| <= |s| && t == End(s, |t|) && |t| < f.header && f.progress(t) == Pending
    requires forall k :: |t| < k <= |s| && k < f.header ==> f.progress(End(s, k)) != Pending
    ensures LongestStart(f, s, t)
  {}

  lemma HeaderAtEnd(f: Format, s: Bytes, t: Bytes, b: Byte)
    requires |t| <= |s| && t == End(s, |t|)
    ensures |t| + 1 == f.header && f.progress(t + [b]) == Pending ==> HasHeader(f, s + [b])
  {
    if |t| + 1 == f.header && f.progress(t + [b]) == Pending {
      assert (s + [b])[|s| - |t|..|s| - |t| + f.header] == t + [b];
      assert HeaderAt(f, s + [b], |s| - |t|);
    }
  }

  lemma StepEnd(f: Format, s: Bytes, t: Bytes, b: Byte)
    requires Sound(f) && LongestStart(f, s, t) && !HasHeader(f, s + [b])
    ensures var t' := Advance(f, t, b);
            |t'| <= |s| + 1 && t' == End(s + [b], |t'|) && |t'| < f.header && f.progress(t') == Pending
  {
    hide Sound, HasHeader, End;
    EndMore(s, b, |t|);
    ShortEnds(s + [b]);
    HeaderAtEnd(f, s, t, b);
    Bare(f);
    NotYetComplete(f, s, t, b);
  }

  lemma ShortEnds(s: Bytes)
    requires |s| > 0
    ensures End(s, 0) == [] && End(s, 1) == [s[|s| - 1]]
  {}

  lemma Bare(f: Format)
    requires Sound(f)
    ensures f.header > 1 && f.progress([]) == Pending && f.progress([f.start]) == Pending
  {}

  lemma PrefixStarts(f: Format, u: Bytes, k: nat)
    requires Sound(f) && k <= |u| <= f.header && f.progress(u) == Pending
    ensures f.progress(u[..k]) == Pending
  {}

  lemma OneStart(f: Format, u: Bytes, i: nat)
    requires Sound(f) && i < |u| <= f.header && f.progress(u) == Pending
    ensures u[i] == f.start <==> i == 0
  {}

  lemma NoLongerStart(f: Format, s: Bytes, t: Bytes, b: Byte, k: nat)
    requires Sound(f) && LongestStart(f, s, t) && |Advance(f, t, b)| < k <= |s| + 1 && k < f.header
    ensures f.progress(End(s + [b], k)) != Pending
  {
    hide Sound;
    var u := End(s + [b], k);
    EndMore(s, b, k - 1);
    NotYetComplete(f, s, t, b);
    assert k == 1 ==> u == [b];
    assert k - 1 == |t| ==> u == t + [b];
    if f.progress(u) == Pending {
      PrefixStarts(f, u, k - 1);
      OneStart(f, u, 0);
      if 1 < k <= |t| {
        // the start byte stands first in the end and, deeper in, once more
        OneStart(f, t, |t| - (k - 1));
      }
      assert false;
    }
  }

  lemma {:induction false} NoiseHeld(f: Format, s: Bytes)
    requires Sound(f) && !HasHeader(f, s)
    ensures LongestStart(f, s, Rest(f, s)) && Cut(f, s) == []
  {
    hide Rest, Cut, HasHeader, LongestStart, Advance;
    if s == [] {
      Nothing(f);
      LongestIs(f, [], []) by {
        assert f.progress([]) == Pending;
      }
    } else {
      var n := |s| - 1;
      assert s == s[..n] + [s[n]];
      FewerHeaders(f, s, n);
      NoiseHeld(f, s[..n]);
      OneMore(f, s[..n], s[n]);
      NoiseStep(f, s[..n], Rest(f, s[..n]), s[n]);
      NotYetComplete(f, s[..n], Rest(f, s[..n]), s[n]);
    }
  }

  lemma NotYetComplete(f: Format, s: Bytes, t: Bytes, b: Byte)
    requires Sound(f) && LongestStart(f, s, t)
    ensures f.progress(t + [b]) != Complete
  {
    assert |t + [b]| <= f.header;
  }

  lemma FewerHeaders(f: Format, s: Bytes, n: nat)
    requires n <= |s|
    ensures HasHeader(f, s[..n]) ==> HasHeader(f, s)
  {
    if i: nat :| HeaderAt(f, s[..n], i) {
      assert s[..n][i..i + f.header] == s[i..i + f.header];
      assert HeaderAt(f, s, i);
    }
  }

  /** With the first `k` bytes of a frame in hand, the others complete it. */
  lemma {:induction false} FrameFrom(f: Format, s: Bytes, frame: Bytes, k: nat)
    requires Framed(f, frame) && k < |frame| && Rest(f, s) == frame[..k]
    ensures Rest(f, s + frame[k..]) == [] && Cut(f, s + frame[k..]) == Cut(f, s) + [frame]
    decreases |frame| - k
  {
    hide Rest, Cut;
    OneMore(f, s, frame[k]);
    assert frame[..k] + [frame[k]] == frame[..k + 1];
    if k + 1 < |frame| {
      FrameFrom(f, s + [frame[k]], frame, k + 1);
      assert s + [frame[k]] + frame[k + 1..] == s + frame[k..];
    } else {
      assert s + frame[k..] == s + [frame[k]];
      assert frame[..k + 1] == frame;
    }
  }

  // ---- When a frame is found -----------------------------------------------------------------

  /** The scanner is looking for a header, and not in the middle of a frame. */
  ghost predicate Seeking(f: Format, s: Bytes)
  {
    |Rest(f, s)| < f.header
  }

  /** After `before` a frame is in hand, whole but for its last byte: it is cut where it
      was sent. */
  ghost predicate FoundAfter(f: Format, before: Bytes, frame: Bytes)
    requires |frame| > 0
  {
    Rest(f, before + frame[..|frame| - 1]) == frame[..|frame| - 1]
  }

  lemma {:induction false} HandPends(f: Format, s: Bytes)
    requires Sound(f)
    ensures f.progress(Rest(f, s)) == Pending
  {
    hide Sound, Rest;
    Bare(f);
    if s == [] {
      Nothing(f);
    } else {
      var n := |s| - 1;
      HandPends(f, s[..n]);
      OneMore(f, s[..n], s[n]);
      assert s == s[..n] + [s[n]];
    }
  }

  /** While a header is looked for, the start byte begins one. */
  lemma StartBegins(f: Format, t: Bytes)
    requires Sound(f) && f.progress(t) == Pending && |t| < f.header
    ensures Advance(f, t, f.start) == [f.start] && f.progress(t + [f.start]) != Complete
  {
    hide Sound;
    Bare(f);
    ShortIsOpen(f, t + [f.start]);
    if f.progress(t + [f.start]) == Pending {
      OneStart(f, t + [f.start], |t|);
    }
  }

  lemma ShortIsOpen(f: Format, u: Bytes)
    requires Sound(f) && |u| <= f.header
    ensures f.progress(u) != Complete
  {}

  lemma FrameStarts(f: Format, frame: Bytes)
    requires Sound(f) && Framed(f, frame) && |frame| > f.header
    ensures f.header > 1 && frame[0] == f.start
  {
    hide Sound;
    Bare(f);
    OneStart(f, frame[..1], 0);
  }

  /** In the middle of a frame every byte goes into it, up to its end. */
  lemma {:induction false} Swallows(f: Format, s: Bytes, u: Bytes)
    requires Sound(f) && Steady(f) && !Seeking(f, s)
    ensures Rest(f, s + u) == Rest(f, s) + u || |Rest(f, s + u)| < |u|
  {
    hide Sound, Rest, Steady;
    if u == [] {
      assert s + u == s;
    } else {
      var n := |u| - 1;
      Swallows(f, s, u[..n]);
      OneMore(f, s + u[..n], u[n]);
      assert s + u == s + u[..n] + [u[n]];
      HandPends(f, s + u[..n]);
      Bare(f);
      if Rest(f, s + u[..n]) == Rest(f, s) + u[..n] {
        KeepsGoing(f, Rest(f, s) + u[..n], u[n]);
        assert Rest(f, s) + u[..n] + [u[n]] == Rest(f, s) + u;
      } else {
        RestShrinks(f, Rest(f, s + u[..n]), u[n]);
      }
    }
  }

  lemma KeepsGoing(f: Format, t: Bytes, b: Byte)
    requires Steady(f) && |t| >= f.header && f.progress(t) == Pending
    ensures f.progress(t + [b]) != Dead
  {}

  /** A frame is cut where it was sent, whatever the stream before it, exactly if the
      scanner is looking for a header when it begins; the scanner is in sync afterwards. */
  lemma FoundIffSeeking(f: Format, s: Bytes, frame: Bytes)
    requires Sound(f) && Steady(f) && Framed(f, frame) && |frame| > f.header
    ensures FoundAfter(f, s, frame) <==> Seeking(f, s)
    ensures Seeking(f, s) ==> Rest(f, s + frame) == [] && Cut(f, s + frame) == Cut(f, s) + [frame]
  {
    hide Sound, Steady, Framed, Rest, Cut, Advance;
    var n := |frame| - 1;
    if Seeking(f, s) {
      FrameStarts(f, frame);
      HandPends(f, s);
      StartBegins(f, Rest(f, s));
      OneMore(f, s, frame[0]);
      assert [frame[0]] == frame[..1];
      FrameGrows(f, s + [frame[0]], frame, 1, n);
      FrameFrom(f, s + [frame[0]], frame, 1);
      assert s + [frame[0]] + frame[1..n] == s + frame[..n] && s + [frame[0]] + frame[1..] == s + frame;
    } else {
      Swallows(f, s, frame[..n]);
      Bare(f);
      assert |Rest(f, s + frame[..n])| != n;
    }
  }

  lemma {:induction false} FrameGrows(f: Format, s: Bytes, frame: Bytes, k: nat, m: nat)
    requires Framed(f, frame) && k <= m < |frame| && Rest(f, s) == frame[..k]
    ensures Rest(f, s + frame[k..m]) == frame[..m]
    decreases m - k
  {
    hide Rest, Framed, Advance;
    if k < m {
      OneMore(f, s, frame[k]);
      FrameKeeps(f, frame, k);
      FrameGrows(f, s + [frame[k]], frame, k + 1, m);
      assert s + [frame[k]] + frame[k + 1..m] == s + frame[k..m];
    } else {
      assert s + frame[k..m] == s;
    }
  }

  lemma FrameKeeps(f: Format, frame: Bytes, k: nat)
    requires Framed(f, frame) && k + 1 < |frame|
    ensures Advance(f, frame[..k], frame[k]) == frame[..k + 1]
  {
    assert frame[..k] + [frame[k]] == frame[..k + 1];
  }

  /** After noise without a header the scanner is still looking for one ... */
  lemma HissIsSeeking(f: Format, hiss: Bytes)
    requires Sound(f) && !HasHeader(f, hiss)
    ensures Seeking(f, hiss) && Cut(f, hiss) == []
  {
    hide Rest, Cut, HasHeader;
    NoiseHeld(f, hiss);
  }

  /** ... and so it is after a whole frame that is good for nothing, and noise behind it. */
  lemma FrameThenHiss(f: Format, bad: Bytes, hiss: Bytes)
    requires Sound(f) && Framed(f, bad) && |bad| > 0 && !HasHeader(f, hiss)
    ensures Seeking(f, bad + hiss) && Cut(f, bad + hiss) == [bad]
  {
    hide Rest, Cut, HasHeader, Sound, Framed;
    FrameIsCut(f, bad);
    InSync(f, bad, hiss);
    HissIsSeeking(f, hiss);
    assert [bad] + [] == [bad];
  }

  // ---- Streams of frames ----------------------------------------------------------------

  /** A frame with what came before it since the last one. */
  datatype Item = Item(noise: Bytes, frame: Bytes)

  ghost predicate Frames(f: Format, items: seq<Item>)
  {
    forall i :: 0 <= i < |items| ==> Framed(f, items[i].frame) && |items[i].frame| > f.header
  }

  ghost function Stream(items: seq<Item>): (s: Bytes)
  {
    if items == [] then []
    else
      var last := items[|items| - 1];
      Stream(items[..|items| - 1]) + (last.noise + last.frame)
  }

  /** The frames, and between them what is cut from the noise itself. */
  ghost function Pieces(f: Format, items: seq<Item>): (frames: seq<Bytes>)
  {
    if items == [] then []
    else
      var last := items[|items| - 1];
      Pieces(f, items[..|items| - 1]) + (Cut(f, last.noise) + [last.frame])
  }

  /** Frame `i` is cut where it was sent. */
  ghost predicate Found(f: Format, items: seq<Item>, i: nat)
    requires i < |items| && |items[i].frame| > 0
  {
    FoundAfter(f, Stream(items[..i]) + items[i].noise, items[i].frame)
  }

  ghost predicate AllFound(f: Format, items: seq<Item>)
    requires Frames(f, items)
  {
    forall i: nat :: i < |items| ==> Found(f, items, i)
  }

  ghost predicate AllSeeking(f: Format, items: seq<Item>)
  {
    forall i :: 0 <= i < |items| ==> Seeking(f, items[i].noise)
  }

  /** Whatever lies between the frames: every one of them is cut where it was sent exactly if
      no noise, taken by itself, ends in the middle of what could be a frame. Then nothing
      else is cut but what the noises hold themselves, and the scanner ends in sync. */
  lemma {:induction false} EveryFrameFound(f: Format, items: seq<Item>)
    requires Sound(f) && Steady(f) && Frames(f, items)
    ensures AllFound(f, items) <==> AllSeeking(f, items)
    ensures AllSeeking(f, items) ==> Rest(f, Stream(items)) == [] && Cut(f, Stream(items)) == Pieces(f, items)
  {
    hide Rest, Cut, Sound, Steady, Framed, FoundAfter, Seeking;
    if items == [] {
      Nothing(f);
    } else {
      var n := |items| - 1;
      var before, last := items[..n], items[n];
      EveryFrameFound(f, before);
      OneFrameLess(f, items);
      if AllSeeking(f, before) {
        LastFound(f, Stream(before), last);
      }
    }
  }

  lemma OneFrameLess(f: Format, items: seq<Item>)
    requires Frames(f, items) && items != []
    ensures var n := |items| - 1; AllFound(f, items) <==> AllFound(f, items[..n]) && Found(f, items, n)
  {
    hide FoundAfter, Framed;
    var n := |items| - 1;
    forall i: nat | i < n
      ensures Found(f, items, i) <==> Found(f, items[..n], i)
    {
      assert items[..n][..i] == items[..i];
    }
  }

  lemma LastFound(f: Format, before: Bytes, last: Item)
    requires Sound(f) && Steady(f) && Framed(f, last.frame) && |last.frame| > f.header && Rest(f, before) == []
    ensures FoundAfter(f, before + last.noise, last.frame) <==> Seeking(f, last.noise)
    ensures var s := before + (last.noise + last.frame);
            Seeking(f, last.noise) ==>
              Rest(f, s) == [] && Cut(f, s) == Cut(f, before) + (Cut(f, last.noise) + [last.frame])
  {
    hide Rest, Cut, Sound, Steady, Framed, FoundAfter;
    InSync(f, before, last.noise);
    FoundIffSeeking(f, before + last.noise, last.frame);
    assert before + last.noise + last.frame == before + (last.noise + last.frame);
  }

  // ---- What a listener is told ------------------------------------------------------------

  /** A complete frame is read, or ignored for its checksum or its length. */
  datatype Reading<T> = Read(frame: T) | Ignored

  ghost function Kept<T>(read: Bytes -> Reading<T>, frames: seq<Bytes>): (kept: seq<T>)
  {
    if frames == [] then []
    else
      var rest, last := Kept(read, frames[..|frames| - 1]), read(frames[|frames| - 1]);
      if last.Read? then rest + [last.frame] else rest
  }

  /** The frames a parser reports in a stream, one byte at a time. */
  ghost function Told<T>(f: Format, read: Bytes -> Reading<T>, s: Bytes): (told: seq<T>)
  {
    if s == [] then []
    else
      var before := s[..|s| - 1];
      var now := read(Rest(f, before) + [s[|s| - 1]]);
      if now.Read? then Told(f, read, before) + [now.frame] else Told(f, read, before)
  }

  lemma ToldOne<T>(f: Format, read: Bytes -> Reading<T>, s: Bytes, b: Byte)
    ensures Told(f, read, []) == []
    ensures var now := read(Rest(f, s) + [b]);
            Told(f, read, s + [b]) == if now.Read? then Told(f, read, s) + [now.frame] else Told(f, read, s)
  {
    hide Rest;
    assert (s + [b])[..|s|] == s;
  }

  lemma {:induction false} KeptMore<T>(read: Bytes -> Reading<T>, a: seq<Bytes>, b: seq<Bytes>)
    ensures Kept(read, a + b) == Kept(read, a) + Kept(read, b)
  {
    hide Kept;
    NothingKept(read);
    if b == [] {
      assert a + b == a;
    } else {
      var n := |b| - 1;
      KeptMore(read, a, b[..n]);
      KeptOne(read, a + b[..n], b[n]);
      KeptOne(read, b[..n], b[n]);
      assert a + b == a + b[..n] + [b[n]] && b == b[..n] + [b[n]];
    }
  }

  lemma KeptOne<T>(read: Bytes -> Reading<T>, frames: seq<Bytes>, t: Bytes)
    ensures Kept(read, frames + [t])
         == if read(t).Read? then Kept(read, frames) + [read(t).frame] else Kept(read, frames)
  {
    assert (frames + [t])[..|frames|] == frames;
  }

  /** A parser that reads complete frames only reports what is read of the frames cut. */
  lemma {:induction false} ToldIsKept<T>(f: Format, read: Bytes -> Reading<T>, s: Bytes)
    requires forall t :: read(t).Read? ==> f.progress(t) == Complete
    ensures Told(f, read, s) == Kept(read, Cut(f, s))
  {
    hide Rest, Cut, Told, Kept;
    if s == [] {
      Nothing(f);
      ToldOne(f, read, [], Byte(0));
      NothingKept(read);
    } else {
      var n := |s| - 1;
      ToldIsKept(f, read, s[..n]);
      assert s == s[..n] + [s[n]];
      ToldOne(f, read, s[..n], s[n]);
      OneMore(f, s[..n], s[n]);
      KeptOne(read, Cut(f, s[..n]), Rest(f, s[..n]) + [s[n]]);
    }
  }

  lemma NothingKept<T>(read: Bytes -> Reading<T>)
    ensures Kept(read, []) == []
  {}
}
