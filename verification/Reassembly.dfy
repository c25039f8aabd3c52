/** What the receive loop guarantees for every fragmentation of the byte stream. */
module Reassembly {
  import opened Bytes
  import opened FrameCodec
  import opened FrameTransceiver

  /** The wire form of `f` lies at position `p`. */
  predicate FrameAt(s: seq<byte>, p: nat, f: Frame) {
    |f.data| <= 255 && p + |Core(f)| <= |s| && s[p..p + |Core(f)|] == Core(f)
  }

  lemma FrameAtShift(s: seq<byte>, more: seq<byte>, d: nat, p: nat, f: Frame)
    requires d <= p && d <= |s|
    ensures FrameAt(s + more, p, f) <==> FrameAt(s[d..] + more, p - d, f)
  {
    assert (s + more)[d..] == s[d..] + more;
    if p + |Core(f)| <= |s + more| {
      SliceOfDrop(s + more, d, p, p + |Core(f)|);
    }
  }

  // ----- fragmentation does not matter -----

  lemma TrimStopsAtFrame(b: seq<byte>, j: nat, f: Frame)
    requires |f.data| <= 255 && b < Repeat(PREAMBLE, j) + Core(f) && |b| > MAX_BUFFER
    ensures TrimLength(b) == if |b| <= j then |b| else j
  {
    var w := Repeat(PREAMBLE, j) + Core(f);
    assert forall q :: 0 <= q < |b| ==> b[q] == w[q];
    assert w[j] == FRAME_START;
  }

  lemma PreambleShortens(b: seq<byte>, rest: seq<byte>, j: nat, d: nat, w: seq<byte>)
    requires b + rest == Repeat(PREAMBLE, j) + w && d <= j && d <= |b|
    ensures b[d..] + rest == Repeat(PREAMBLE, j - d) + w
  {
    assert (b + rest)[d..] == b[d..] + rest;
    assert Repeat(PREAMBLE, j)[d..] == Repeat(PREAMBLE, j - d);
    assert (Repeat(PREAMBLE, j) + w)[d..] == Repeat(PREAMBLE, j)[d..] + w;
  }

  lemma AbsorbIncomplete(buffer: seq<byte>, c: seq<byte>, rest: seq<byte>, j: nat, f: Frame, tail: seq<byte>)
    requires |f.data| <= 255 && |buffer + c| < j + |Core(f)|
    requires (buffer + c) + rest == Repeat(PREAMBLE, j) + (Core(f) + tail)
    ensures var step := Absorb(buffer, c); var d := |buffer + c| - |step.buffer|;
            step.frame.None? && 0 <= d <= j &&
            step.buffer + rest == Repeat(PREAMBLE, j - d) + (Core(f) + tail)
  {
    var b, w := buffer + c, Repeat(PREAMBLE, j) + Core(f);
    Assoc(Repeat(PREAMBLE, j), Core(f), tail);
    assert b == (b + rest)[..|b|] == (w + tail)[..|b|] == w[..|b|];
    StrictPrefixDecodesToNothing(b, j, f);
    if c == [] {
      assert b == buffer;
    } else if |b| > MAX_BUFFER {
      TrimStopsAtFrame(b, j, f);
      PreambleShortens(b, rest, j, TrimLength(b), Core(f) + tail);
    }
  }

  lemma {:induction false} Delivers(
      buffer: seq<byte>, chunks: seq<seq<byte>>, j: nat, f: Frame, tail: seq<byte>)
    requires |f.data| <= 255 && |buffer| < j + |Core(f)|
    requires buffer + Flatten(chunks) == Repeat(PREAMBLE, j) + (Core(f) + tail)
    ensures var o := Receive(buffer, chunks);
            o.frame == Some(f) && o.used > 0 && o.buffer + Flatten(chunks[o.used..]) == tail &&
            |o.buffer| < |chunks[o.used - 1]|
    decreases |chunks|
  {
    hide Core, Decode, TrimLength, Repeat;
    assert chunks != [];
    var c, rest := chunks[0], Flatten(chunks[1..]);
    Assoc(buffer, c, rest);
    if |buffer + c| >= j + |Core(f)| {
      CompletedBy(buffer + c, rest, j, f, tail);
    } else {
      AbsorbIncomplete(buffer, c, rest, j, f, tail);
      var step := Absorb(buffer, c);
      var d := |buffer + c| - |step.buffer|;
      Delivers(step.buffer, chunks[1..], j - d, f, tail);
      LaterOutcome(buffer, chunks);
    }
  }

  lemma LaterOutcome(buffer: seq<byte>, chunks: seq<seq<byte>>)
    requires chunks != [] && Absorb(buffer, chunks[0]).frame.None?
    ensures var later := Receive(Absorb(buffer, chunks[0]).buffer, chunks[1..]); var o := Receive(buffer, chunks);
            o.frame == later.frame && o.buffer == later.buffer && o.used == later.used + 1 &&
            chunks[o.used..] == chunks[1..][later.used..] &&
            (later.used > 0 ==> chunks[o.used - 1] == chunks[1..][later.used - 1])
  {
  }

  lemma CompletedBy(b: seq<byte>, rest: seq<byte>, j: nat, f: Frame, tail: seq<byte>)
    requires |f.data| <= 255 && |b| >= j + |Core(f)|
    requires b + rest == Repeat(PREAMBLE, j) + (Core(f) + tail)
    ensures Decode(b) == Some(Decoded(f, j + |Core(f)|))
    ensures b[j + |Core(f)|..] + rest == tail
  {
    var w := Repeat(PREAMBLE, j) + Core(f);
    Assoc(Repeat(PREAMBLE, j), Core(f), tail);
    assert b[..|w|] == (b + rest)[..|w|] == w;
    CarriedDecodes(b, j, f);
    assert (b + rest)[|w|..] == b[|w|..] + rest;
    assert (w + tail)[|w|..] == tail;
  }

  lemma CompletionPoint(chunks: seq<seq<byte>>, used: nat, left: seq<byte>, w: seq<byte>, tail: seq<byte>)
    requires 0 < used <= |chunks| && Flatten(chunks) == w + tail
    requires left + Flatten(chunks[used..]) == tail && |left| < |chunks[used - 1]|
    ensures |Flatten(chunks[..used - 1])| < |w| <= |Flatten(chunks[..used])|
    ensures left == Flatten(chunks[..used])[|w|..]
  {
    var got, rest := Flatten(chunks[..used]), Flatten(chunks[used..]);
    assert chunks == chunks[..used] + chunks[used..];
    FlattenSplit(chunks[..used], chunks[used..]);
    FlattenSnoc(chunks, used - 1);
    Assoc(w, left, rest);
    CancelRight(got, w + left, rest);
  }

  /**
   Any number of FE bytes, any frame and anything after it, cut into chunks in any way and mixed with
   empty reads: the frame comes out at the chunk that completes it and only that chunk's rest stays.
   */
  lemma ChunkingIndependence(chunks: seq<seq<byte>>, k: nat, f: Frame, tail: seq<byte>)
    requires |f.data| <= 255
    requires Flatten(chunks) == Repeat(PREAMBLE, k) + Core(f) + tail
    ensures var o := Receive([], chunks);
            o.frame == Some(f) && o.used > 0 &&
            |Flatten(chunks[..o.used - 1])| < k + |Core(f)| <= |Flatten(chunks[..o.used])| &&
            o.buffer == Flatten(chunks[..o.used])[k + |Core(f)|..]
  {
    Assoc(Repeat(PREAMBLE, k), Core(f), tail);
    assert [] + Flatten(chunks) == Flatten(chunks);
    Delivers([], chunks, k, f, tail);
    var o := Receive([], chunks);
    CompletionPoint(chunks, o.used, o.buffer, Repeat(PREAMBLE, k) + Core(f), tail);
  }

  // ----- trimming loses no frame -----

  /**
   When the buffer is trimmed, the frames in it and in every continuation of it, whole or still
   incomplete, are exactly those of the trimmed buffer and its continuations.
   */
  lemma TrimIsLossless(b: seq<byte>, more: seq<byte>, p: nat, f: Frame)
    requires |b| > MAX_BUFFER && Decode(b) == None
    ensures FrameAt(b + more, p, f) <==>
            p >= TrimLength(b) && FrameAt(b[TrimLength(b)..] + more, p - TrimLength(b), f)
  {
    var d := TrimLength(b);
    if p >= d {
      FrameAtShift(b, more, d, p, f);
    } else if FrameAt(b + more, p, f) {
      var s := b + more;
      assert s[p] == s[p..p + |Core(f)|][0] == FRAME_START;
      assert s[p] == b[p];
      assert p == 0;
      assert b[..|Core(f)|] == s[0..|Core(f)|];
      assert Repeat(PREAMBLE, 0) + Core(f) == Core(f);
      CarriedDecodes(b, 0, f);
    }
  }

  // ----- the size of the buffer -----

  /**
   A pass that returns nothing drops nothing from up to 1024 bytes. From more it drops the first byte and whatever
   comes before the next start byte, and everything when there is none.
   */
  lemma PassLeaves(buffer: seq<byte>, c: seq<byte>)
    requires Absorb(buffer, c).frame.None?
    ensures var b, left := buffer + c, Absorb(buffer, c).buffer; var d := |b| - |left|;
            0 <= d <= |b| && left == b[d..] && (c == [] || |b| <= 1024 ==> d == 0) &&
            (c != [] && |b| > 1024 ==>
              d >= 1 && (forall q :: 1 <= q < d ==> b[q] != 0x68) && (d < |b| ==> b[d] == 0x68))
  {
    hide Decode;
    assert c == [] ==> buffer + c == buffer;
  }

  /** A pass that returns nothing leaves at most the nominal maximum exactly when no start byte stops the trim early. */
  lemma BufferFitsIff(buffer: seq<byte>, c: seq<byte>)
    requires c != [] && Absorb(buffer, c).frame.None?
    ensures var b := buffer + c;
            |Absorb(buffer, c).buffer| <= MAX_BUFFER <==>
            forall q :: 1 <= q < |b| - MAX_BUFFER ==> b[q] != FRAME_START
  {
    hide Decode;
    var b := buffer + c;
    if |b| > MAX_BUFFER {
      var d := TrimLength(b);
      assert d < |b| ==> b[d] == FRAME_START;
    }
  }

  lemma {:induction false} SumOfRepeat(b: byte, n: nat)
    ensures Sum(Repeat(b, n)) == b * n
  {
    if n > 0 {
      SumOfRepeat(b, n - 1);
      assert Repeat(b, n)[..n - 1] == Repeat(b, n - 1);
    }
  }

  /** Start bytes alone never form a frame: their checksum would be another byte. */
  lemma OnlyStartsDecodeToNothing(n: nat)
    ensures Decode(Repeat(FRAME_START, n)) == None
  {
    var s := Repeat(FRAME_START, n);
    if n > 0 {
      PreambleLength(s, 0);
      assert s[0..] == s;
    }
    if n >= 12 + 0x68 {
      assert s[..10 + 0x68] == Repeat(FRAME_START, 10 + 0x68);
      SumOfRepeat(FRAME_START, 10 + 0x68);
    }
  }

  lemma OnlyStartsGrow(n: nat)
    ensures var step := Absorb(Repeat(FRAME_START, n), Repeat(FRAME_START, 2));
            step.frame.None? && step.buffer == Repeat(FRAME_START, if n + 2 > MAX_BUFFER then n + 1 else n + 2)
  {
    hide Decode;
    var b := Repeat(FRAME_START, n) + Repeat(FRAME_START, 2);
    assert b == Repeat(FRAME_START, n + 2);
    OnlyStartsDecodeToNothing(n + 2);
    assert |b| > MAX_BUFFER ==> TrimLength(b) == 1 && b[1..] == Repeat(FRAME_START, n + 1);
  }

  /** So the buffer has no bound: `k` reads of two start bytes leave at least `k` more bytes in it. */
  lemma {:induction false} BufferHasNoBound(n: nat, k: nat) returns (size: nat)
    ensures size >= n + k
    ensures var o := Receive(Repeat(FRAME_START, n), seq(k, _ => Repeat(FRAME_START, 2)));
            o.frame.None? && o.buffer == Repeat(FRAME_START, size)
    decreases k
  {
    hide Absorb;
    var chunks := seq(k, _ => Repeat(FRAME_START, 2));
    if k == 0 {
      size := n;
    } else {
      OnlyStartsGrow(n);
      size := BufferHasNoBound(if n + 2 > MAX_BUFFER then n + 1 else n + 2, k - 1);
      assert chunks[1..] == seq(k - 1, _ => Repeat(FRAME_START, 2));
    }
  }

  // ----- resynchronisation -----

  function Starts(s: seq<byte>): nat {
    if s == [] then 0 else (if s[0] == FRAME_START then 1 else 0) + Starts(s[1..])
  }

  lemma {:induction false} StartsConcat(s: seq<byte>, t: seq<byte>)
    ensures Starts(s + t) == Starts(s) + Starts(t)
  {
    if s == [] {
      assert s + t == t;
    } else {
      assert (s + t)[1..] == s[1..] + t;
      StartsConcat(s[1..], t);
    }
  }

  /** Start bytes after the first position up to and including `p`: the trims that can still come before `p`. */
  function Markers(s: seq<byte>, p: nat): nat
    requires p < |s|
  {
    Starts(s[1..p + 1])
  }

  function NonEmpty(chunks: seq<seq<byte>>): nat {
    if chunks == [] then 0 else (if chunks[0] == [] then 0 else 1) + NonEmpty(chunks[1..])
  }

  /** Room left below the trimming threshold. */
  function Room(s: seq<byte>): nat {
    if |s| >= MAX_BUFFER then 0 else MAX_BUFFER - |s|
  }

  /** How many non-empty chunks can pass before the frame at `p`, or an earlier one, is returned. */
  function Patience(s: seq<byte>, p: nat): nat
    requires p < |s|
  {
    Markers(s, p) * MAX_BUFFER + Room(s) + 1
  }

  /** The outcome is the frame `f` at `p` of the stream, or a frame that starts before it. */
  ghost predicate Resynced(o: Outcome, stream: seq<byte>, p: nat, f: Frame) {
    o.frame.Some? &&
    exists q: nat :: q <= p && FrameAt(stream, q, o.frame.value) && (q == p ==> o.frame.value == f) &&
                o.buffer == stream[q + |Core(o.frame.value)|..]
  }

  lemma MarkersDrop(s: seq<byte>, d: nat, p: nat)
    requires 1 <= d <= p < |s| && s[d] == FRAME_START
    ensures Markers(s[d..], p - d) + 1 <= Markers(s, p)
  {
    var t := s[1..p + 1];
    assert t == t[..d] + t[d..];
    StartsConcat(t[..d], t[d..]);
    assert t[..d] == t[..d - 1] + [FRAME_START];
    StartsConcat(t[..d - 1], [FRAME_START]);
    assert Starts([FRAME_START]) == 1 + Starts([FRAME_START][1..]);
    assert s[d..][1..p - d + 1] == t[d..];
  }

  lemma MarkersGrow(s: seq<byte>, more: seq<byte>, p: nat)
    requires p < |s|
    ensures Markers(s + more, p) == Markers(s, p)
  {
    assert (s + more)[1..p + 1] == s[1..p + 1];
  }

  lemma FrameStarts(s: seq<byte>, p: nat, f: Frame)
    requires FrameAt(s, p, f)
    ensures p < |s| && s[p] == FRAME_START
  {
    assert s[p] == s[p..p + |Core(f)|][0];
  }

  lemma CarriedFrameAt(b: seq<byte>, k: nat, f: Frame)
    requires Decode(b) == Some(Decoded(f, k + |Core(f)|))
    ensures FrameAt(b, k, f)
    ensures k + |Core(f)| <= |b| && b[..k] == Repeat(PREAMBLE, k)
  {
    DecodedIsCarried(b);
    var w := Repeat(PREAMBLE, k) + Core(f);
    assert b[..|w|] == w;
    SliceOfDrop(b[..|w|], 0, k, |w|);
    assert b[k..|w|] == w[k..] == Core(f);
    assert b[..k] == w[..k];
  }

  /** A successful decoding takes the frame at `p` or one that starts before it. */
  lemma DecodesNoLater(b: seq<byte>, more: seq<byte>, p: nat, f: Frame)
    requires FrameAt(b + more, p, f) && Decode(b).Some?
    ensures var d := Decode(b).value; var n := |Core(d.frame)|;
            n <= d.consumed <= |b| && d.consumed - n <= p && FrameAt(b, d.consumed - n, d.frame) &&
            (d.consumed - n == p ==> d.frame == f)
  {
    var d := Decode(b).value;
    DecodedIsCarried(b);
    var k := d.consumed - |Core(d.frame)|;
    CarriedFrameAt(b, k, d.frame);
    FrameStarts(b + more, p, f);
    assert forall i :: 0 <= i < k ==> (b + more)[i] == b[..k][i] == PREAMBLE;
    if k == p {
      SameFrame(b + more, b, p, f, d.frame);
    }
  }

  lemma SameFrame(s: seq<byte>, b: seq<byte>, p: nat, f: Frame, g: Frame)
    requires b <= s && FrameAt(s, p, f) && FrameAt(b, p, g)
    ensures f == g
  {
    assert s[p..][..|Core(f)|] == Core(f);
    assert s[p..][..|Core(g)|] == b[p..p + |Core(g)|] == Core(g);
    CoreDecodes(s[p..], f);
    CoreDecodes(s[p..], g);
  }

  lemma DecodesAtFront(b: seq<byte>, f: Frame)
    requires FrameAt(b, 0, f)
    ensures Decode(b).Some?
  {
    assert Repeat(PREAMBLE, 0) + Core(f) == Core(f) == b[0..|Core(f)|];
    CarriedDecodes(b, 0, f);
  }

  lemma AppendUsesPatience(s: seq<byte>, c: seq<byte>, p: nat)
    requires c != [] && p < |s| && |s + c| <= MAX_BUFFER
    ensures Patience(s + c, p) < Patience(s, p)
  {
    MarkersGrow(s, c, p);
  }

  lemma TrimUsesPatience(s: seq<byte>, c: seq<byte>, d: nat, p: nat)
    requires 1 <= d <= p < |s| && (s + c)[d] == FRAME_START
    ensures Patience((s + c)[d..], p - d) < Patience(s, p)
  {
    MarkersGrow(s, c, p);
    MarkersDrop(s + c, d, p);
  }

  /** One non-empty chunk returns a frame or uses up patience, and never passes the frame at `p`. */
  lemma ChunkUsesPatience(buffer: seq<byte>, c: seq<byte>, p: nat, f: Frame)
    requires c != [] && FrameAt(buffer, p, f)
    ensures var step := Absorb(buffer, c); var d := |buffer + c| - |step.buffer|;
            step.frame.None? ==>
              0 <= d <= p && step.buffer == (buffer + c)[d..] && FrameAt(step.buffer, p - d, f) &&
              Patience(step.buffer, p - d) < Patience(buffer, p)
  {
    hide Core, Patience, FrameAt, Decode, Markers;
    var b, step := buffer + c, Absorb(buffer, c);
    FrameStarts(buffer, p, f);
    FrameAtAppend(buffer, c, p, f);
    FrameStarts(b, p, f);
    if step.frame.None? {
      if |b| > MAX_BUFFER {
        var d := TrimLength(b);
        assert b + [] == b && b[d..] + [] == b[d..];
        TrimIsLossless(b, [], p, f);
        if p == 0 {
          DecodesAtFront(b, f);
        }
        TrimUsesPatience(buffer, c, d, p);
      } else {
        assert b[0..] == b;
        AppendUsesPatience(buffer, c, p);
      }
    }
  }

  lemma FrameAtAppend(s: seq<byte>, more: seq<byte>, p: nat, f: Frame)
    requires FrameAt(s, p, f)
    ensures FrameAt(s + more, p, f)
  {
    assert (s + more)[p..p + |Core(f)|] == s[p..p + |Core(f)|];
  }

  /** The bytes a receive call has seen: what was buffered and the chunks it used. */
  function Seen(buffer: seq<byte>, chunks: seq<seq<byte>>): seq<byte> {
    buffer + Flatten(chunks[..Receive(buffer, chunks).used])
  }

  lemma SeenLater(buffer: seq<byte>, chunks: seq<seq<byte>>, d: nat)
    requires chunks != [] && d <= |buffer + chunks[0]|
    requires var step := Absorb(buffer, chunks[0]); step.frame.None? && step.buffer == (buffer + chunks[0])[d..]
    ensures var later := Absorb(buffer, chunks[0]).buffer;
            d <= |Seen(buffer, chunks)| && Seen(later, chunks[1..]) == Seen(buffer, chunks)[d..]
  {
    var c, later := chunks[0], Absorb(buffer, chunks[0]).buffer;
    var u := Receive(later, chunks[1..]).used;
    var got := Flatten(chunks[1..][..u]);
    LaterOutcome(buffer, chunks);
    assert chunks[..u + 1][1..] == chunks[1..][..u];
    assert Flatten(chunks[..u + 1]) == c + got;
    Assoc(buffer, c, got);
    DropOfConcat(buffer + c, got, d);
  }

  lemma ResyncedLift(later: Outcome, o: Outcome, stream: seq<byte>, d: nat, p: nat, f: Frame)
    requires d <= p && d <= |stream| && o.frame == later.frame && o.buffer == later.buffer
    requires Resynced(later, stream[d..], p - d, f)
    ensures Resynced(o, stream, p, f)
  {
    var g := o.frame.value;
    var q: nat :| q <= p - d && FrameAt(stream[d..], q, g) && (q == p - d ==> g == f) &&
                  later.buffer == stream[d..][q + |Core(g)|..];
    FrameAtLater(stream, d, q, g);
    assert stream[d..][q + |Core(g)|..] == stream[q + d + |Core(g)|..];
  }

  lemma ResyncedLater(buffer: seq<byte>, chunks: seq<seq<byte>>, d: nat, p: nat, f: Frame)
    requires chunks != [] && d <= p && d <= |buffer + chunks[0]|
    requires var step := Absorb(buffer, chunks[0]); step.frame.None? && step.buffer == (buffer + chunks[0])[d..]
    requires var later := Absorb(buffer, chunks[0]).buffer;
             Resynced(Receive(later, chunks[1..]), Seen(later, chunks[1..]), p - d, f)
    ensures Resynced(Receive(buffer, chunks), Seen(buffer, chunks), p, f)
  {
    LaterOutcome(buffer, chunks);
    SeenLater(buffer, chunks, d);
    var later := Receive(Absorb(buffer, chunks[0]).buffer, chunks[1..]);
    ResyncedLift(later, Receive(buffer, chunks), Seen(buffer, chunks), d, p, f);
  }

  lemma SeenNow(buffer: seq<byte>, chunks: seq<seq<byte>>)
    requires chunks != [] && Absorb(buffer, chunks[0]).frame.Some?
    ensures Seen(buffer, chunks) == buffer + chunks[0]
  {
    FlattenSnoc(chunks, 0);
    assert Flatten(chunks[..1]) == chunks[0];
    assert Receive(buffer, chunks).used == 1;
  }

  lemma ResyncedNow(buffer: seq<byte>, chunks: seq<seq<byte>>, more: seq<byte>, p: nat, f: Frame)
    requires chunks != [] && Absorb(buffer, chunks[0]).frame.Some?
    requires FrameAt((buffer + chunks[0]) + more, p, f)
    ensures Resynced(Receive(buffer, chunks), Seen(buffer, chunks), p, f)
  {
    hide Core, FrameAt, Resynced, Seen;
    var b := buffer + chunks[0];
    SeenNow(buffer, chunks);
    DecodesNoLater(b, more, p, f);
    var d := Decode(b).value;
    ResyncedAt(Receive(buffer, chunks), b, p, f, d.consumed - |Core(d.frame)|);
  }

  lemma ResyncedAt(o: Outcome, stream: seq<byte>, p: nat, f: Frame, q: nat)
    requires o.frame.Some? && q <= p && FrameAt(stream, q, o.frame.value) && (q == p ==> o.frame.value == f)
    requires o.buffer == stream[q + |Core(o.frame.value)|..]
    ensures Resynced(o, stream, p, f)
  {
  }

  /** A chunk that returns nothing leaves enough patience for the chunks behind it. */
  lemma PatienceLeft(buffer: seq<byte>, chunks: seq<seq<byte>>, p: nat, f: Frame)
    requires chunks != [] && FrameAt(buffer, p, f) && NonEmpty(chunks) >= Patience(buffer, p)
    ensures var c := chunks[0]; var step := Absorb(buffer, c); var d := |buffer + c| - |step.buffer|;
            step.frame.None? ==>
              0 <= d <= p && step.buffer == (buffer + c)[d..] && FrameAt(step.buffer, p - d, f) &&
              NonEmpty(chunks[1..]) >= Patience(step.buffer, p - d)
  {
    hide Core, Decode, FrameAt, Patience, TrimLength;
    var c := chunks[0];
    if c == [] {
      assert buffer + c == buffer == buffer[0..];
    } else {
      ChunkUsesPatience(buffer, c, p, f);
    }
  }

  lemma PatienceIsPositive(s: seq<byte>, p: nat)
    requires p < |s|
    ensures Patience(s, p) > 0
  {
  }

  /**
   A valid frame behind any noise in the buffer: within `Patience` non-empty chunks, and whatever they
   contain, the call returns that frame or a valid one that starts earlier.
   */
  lemma {:induction false} Resynchronises(buffer: seq<byte>, chunks: seq<seq<byte>>, p: nat, f: Frame)
    requires FrameAt(buffer, p, f) && NonEmpty(chunks) >= Patience(buffer, p)
    ensures Resynced(Receive(buffer, chunks), Seen(buffer, chunks), p, f)
    decreases |chunks|
  {
    hide Core, Absorb, Receive, Patience, Resynced, Seen, Markers;
    PatienceIsPositive(buffer, p);
    var c := chunks[0];
    var step := Absorb(buffer, c);
    if step.frame.Some? {
      FrameAtAppend(buffer, c, p, f);
      assert (buffer + c) + [] == buffer + c;
      ResyncedNow(buffer, chunks, [], p, f);
    } else {
      var d := |buffer + c| - |step.buffer|;
      PatienceLeft(buffer, chunks, p, f);
      Resynchronises(step.buffer, chunks[1..], p - d, f);
      ResyncedLater(buffer, chunks, d, p, f);
    }
  }

  /** The same bound when only the stream, and not the fill of the buffer, is known. */
  function StreamPatience(s: seq<byte>, p: nat): nat
    requires p < |s|
  {
    (Markers(s, p) + 1) * MAX_BUFFER + 1
  }

  lemma StreamPatienceSuffix(s: seq<byte>, d: nat, p: nat)
    requires d <= p < |s|
    ensures StreamPatience(s[d..], p - d) <= StreamPatience(s, p)
  {
    var t := s[1..p + 1];
    assert s[d..][1..p - d + 1] == t[d..];
    assert t == t[..d] + t[d..];
    StartsConcat(t[..d], t[d..]);
  }

  lemma AbsorbKeepsFrame(buffer: seq<byte>, c: seq<byte>, rest: seq<byte>, p: nat, f: Frame) returns (d: nat)
    requires Absorb(buffer, c).frame.None? && FrameAt((buffer + c) + rest, p, f)
    ensures d <= p && d <= |buffer + c| && Absorb(buffer, c).buffer == (buffer + c)[d..]
    ensures var later := Absorb(buffer, c).buffer + rest;
            FrameAt(later, p - d, f) && StreamPatience(later, p - d) <= StreamPatience((buffer + c) + rest, p)
  {
    hide Core, Markers;
    var b := buffer + c;
    d := |b| - |Absorb(buffer, c).buffer|;
    if c != [] && |b| > MAX_BUFFER {
      TrimIsLossless(b, rest, p, f);
    } else {
      assert b[0..] == b;
      assert c == [] ==> b == buffer;
    }
    DropOfConcat(b, rest, d);
    StreamPatienceSuffix(b + rest, d, p);
  }

  /** The same for a frame that is still arriving: `before` completes it, `after` is what keeps coming. */
  lemma {:induction false} ResynchronisesInStream(
      buffer: seq<byte>, before: seq<seq<byte>>, after: seq<seq<byte>>, p: nat, f: Frame)
    requires FrameAt(buffer + Flatten(before), p, f)
    requires NonEmpty(after) >= StreamPatience(buffer + Flatten(before), p)
    ensures Resynced(Receive(buffer, before + after), Seen(buffer, before + after), p, f)
    decreases |before|
  {
    hide Core, Decode, FrameAt, Resynced, TrimLength, Markers, Absorb;
    if before == [] {
      assert buffer + Flatten(before) == buffer && before + after == after;
      Resynchronises(buffer, after, p, f);
    } else {
      var chunks, c, rest := before + after, before[0], Flatten(before[1..]);
      assert chunks[0] == c;
      DropOfConcat(before, after, 1);
      Assoc(buffer, c, rest);
      if Absorb(buffer, c).frame.Some? {
        ResyncedNow(buffer, chunks, rest, p, f);
      } else {
        var d := AbsorbKeepsFrame(buffer, c, rest, p, f);
        ResynchronisesInStream(Absorb(buffer, c).buffer, before[1..], after, p - d, f);
        ResyncedLater(buffer, chunks, d, p, f);
      }
    }
  }

  // ----- conservation over whole runs -----

  /** The frames of the consumed segments, in order. */
  function Frames(segments: seq<Segment>): seq<Frame> {
    if segments == [] then []
    else (if segments[0].Consumed? then [segments[0].frame] else []) + Frames(segments[1..])
  }

  lemma {:induction false} FramesConcat(s: seq<Segment>, t: seq<Segment>)
    ensures Frames(s + t) == Frames(s) + Frames(t)
  {
    if s == [] {
      assert s + t == t;
    } else {
      assert (s + t)[1..] == s[1..] + t;
      FramesConcat(s[1..], t);
      Assoc(if s[0].Consumed? then [s[0].frame] else [], Frames(s[1..]), Frames(t));
    }
  }

  function Returned(frame: Option<Frame>): seq<Frame> {
    if frame.Some? then [frame.value] else []
  }

  lemma {:induction false} ReceiveConserves(buffer: seq<byte>, chunks: seq<seq<byte>>)
    ensures var o := Receive(buffer, chunks);
            Accounted(Seen(buffer, chunks), o.segments, o.buffer) && Frames(o.segments) == Returned(o.frame)
    decreases |chunks|
  {
    hide Core, Decode, TrimLength;
    if chunks == [] {
      assert buffer + Flatten([]) == buffer == [] + buffer;
    } else {
      var c, step := chunks[0], Absorb(buffer, chunks[0]);
      assert Frames(step.segments) == Returned(step.frame) by {
        assert step.segments == [] || step.segments[1..] == [];
      }
      AbsorbConserves(buffer, c);
      if step.frame.Some? {
        SeenNow(buffer, chunks);
      } else {
        var later := Receive(step.buffer, chunks[1..]);
        var got := Flatten(chunks[1..][..later.used]);
        ReceiveConserves(step.buffer, chunks[1..]);
        assert chunks[..later.used + 1][1..] == chunks[1..][..later.used];
        Assoc(buffer, c, got);
        FramesConcat(step.segments, later.segments);
        AccountedInTurn(buffer + c, step.segments, step.buffer, got, later.segments, later.buffer);
      }
    }
  }

  lemma DecodedFrameAt(b: seq<byte>) returns (q: nat)
    requires Decode(b).Some?
    ensures FrameAt(b, q, Decode(b).value.frame)
  {
    hide Decode;
    var d := Decode(b).value;
    DecodedIsCarried(b);
    q := d.consumed - |Core(d.frame)|;
    CarriedFrameAt(b, q, d.frame);
  }

  /** The position in the bytes seen at which the returned frame lies. */
  lemma {:induction false} ReturnedFrameAt(buffer: seq<byte>, chunks: seq<seq<byte>>) returns (q: nat)
    requires Receive(buffer, chunks).frame.Some?
    ensures FrameAt(Seen(buffer, chunks), q, Receive(buffer, chunks).frame.value)
    decreases |chunks|
  {
    hide Core, Decode, TrimLength, FrameAt, Seen;
    var b, step := buffer + chunks[0], Absorb(buffer, chunks[0]);
    if step.frame.Some? {
      SeenNow(buffer, chunks);
      q := DecodedFrameAt(b);
    } else {
      q := ReturnedFrameAt(step.buffer, chunks[1..]);
      var d := DroppedBy(buffer, chunks[0]);
      LaterOutcome(buffer, chunks);
      SeenLater(buffer, chunks, d);
      FrameAtLater(Seen(buffer, chunks), d, q, Receive(buffer, chunks).frame.value);
      q := q + d;
    }
  }

  lemma DroppedBy(buffer: seq<byte>, c: seq<byte>) returns (d: nat)
    requires Absorb(buffer, c).frame.None?
    ensures d <= |buffer + c| && Absorb(buffer, c).buffer == (buffer + c)[d..]
  {
    d := |buffer + c| - |Absorb(buffer, c).buffer|;
    assert c == [] ==> buffer + c == buffer;
  }

  lemma FrameAtLater(stream: seq<byte>, d: nat, q: nat, f: Frame)
    requires d <= |stream| && FrameAt(stream[d..], q, f)
    ensures FrameAt(stream, q + d, f)
  {
    assert stream + [] == stream && stream[d..] + [] == stream[d..];
    FrameAtShift(stream, [], d, q + d, f);
  }

  lemma ReturnedFrameInStream(chunks: seq<seq<byte>>) returns (q: nat)
    requires Receive([], chunks).frame.Some?
    ensures FrameAt(Flatten(chunks[..Receive([], chunks).used]), q, Receive([], chunks).frame.value)
  {
    q := ReturnedFrameAt([], chunks);
    var stream := Flatten(chunks[..Receive([], chunks).used]);
    assert [] + stream == stream;
  }

  datatype Run = Run(frames: seq<Frame>, received: seq<byte>, segments: seq<Segment>, buffer: seq<byte>)

  /** Any number of receive calls after a send, each with its own chunks and its own deadline. */
  function ReceiveAll(buffer: seq<byte>, calls: seq<seq<seq<byte>>>): Run
    decreases |calls|
  {
    if calls == [] then Run([], [], [], buffer)
    else
      var o := Receive(buffer, calls[0]);
      var r := ReceiveAll(o.buffer, calls[1..]);
      Run(Returned(o.frame) + r.frames, Flatten(calls[0][..o.used]) + r.received, o.segments + r.segments, r.buffer)
  }

  /**
   Over a whole run the bytes received are, in order, the segments consumed and trimmed and then the
   buffer, and the consumed segments are the wire forms of exactly the frames returned, in order.
   */
  lemma {:induction false} RunConserves(buffer: seq<byte>, calls: seq<seq<seq<byte>>>)
    ensures var r := ReceiveAll(buffer, calls);
            Accounted(buffer + r.received, r.segments, r.buffer) && Frames(r.segments) == r.frames
    decreases |calls|
  {
    if calls == [] {
      assert buffer + [] == buffer == [] + buffer;
    } else {
      var o := Receive(buffer, calls[0]);
      var r := ReceiveAll(o.buffer, calls[1..]);
      ReceiveConserves(buffer, calls[0]);
      RunConserves(o.buffer, calls[1..]);
      FramesConcat(o.segments, r.segments);
      AccountedInTurn(Seen(buffer, calls[0]), o.segments, o.buffer, r.received, r.segments, r.buffer);
      Assoc(buffer, Flatten(calls[0][..o.used]), r.received);
    }
  }
}
