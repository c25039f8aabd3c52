/**
 The DL/T 645-2007 frame (section 5.2 of the standard) and its wire form:
 68 A0..A5 68 C L data+33.. CS 16, after any number of leading FE bytes (section 5.3).
 */
module FrameCodec {
  import opened Bytes
  import opened Address
  import BcdCodec

  const PREAMBLE: byte := 0xFE
  const FRAME_START: byte := 0x68
  const FRAME_END: byte := 0x16

  datatype Frame = Frame(address: Address, control: byte, data: seq<byte>)

  datatype Decoded = Decoded(frame: Frame, consumed: nat)

  // ----- encoding -----

  function Checksum(s: seq<byte>): byte {
    Sum(s) % 256
  }

  method CalcChecksum(s: seq<byte>) returns (sum: byte)
    ensures sum == Sum(s) % 256
  {
    sum := 0;
    for i := 0 to |s|
      invariant sum == Sum(s[..i]) % 256
    {
      assert s[..i + 1][..i] == s[..i];
      sum := (sum as int + s[i] as int) % 256;
    }
    assert s[..|s|] == s;
  }

  /** Everything the checksum covers. The length byte is truncated to eight bits. */
  function Body(f: Frame): (r: seq<byte>)
    ensures |r| == 10 + |f.data|
  {
    [FRAME_START] + f.address + [FRAME_START, f.control, |f.data| % 256] + BcdCodec.Add33(f.data)
  }

  /** A frame on the wire, without leading FE bytes. */
  function Core(f: Frame): (r: seq<byte>)
    ensures |r| == 12 + |f.data|
  {
    Body(f) + [Checksum(Body(f)), FRAME_END]
  }

  function Encode(f: Frame): seq<byte> {
    Repeat(PREAMBLE, 4) + Core(f)
  }

  method EncodeFrame(f: Frame) returns (result: seq<byte>)
    ensures result == Encode(f)
  {
    result := [];
    for i := 0 to 4
      invariant result == Repeat(PREAMBLE, i)
    {
      result := result + [PREAMBLE];
    }
    var start := |result|;
    result := result + [FRAME_START];
    for i := 0 to 6
      invariant result == Repeat(PREAMBLE, 4) + [FRAME_START] + f.address[..i]
    {
      result := result + [f.address[i]];
    }
    result := result + [FRAME_START];
    result := result + [f.control];
    result := result + [|f.data| % 256];
    var masked := BcdCodec.MaskData(f.data);
    ghost var header := result;
    for i := 0 to |masked|
      invariant result == header + masked[..i]
    {
      result := result + [masked[i]];
    }
    assert result == Repeat(PREAMBLE, 4) + Body(f);
    assert result[start..] == Body(f);
    var cs := CalcChecksum(result[start..]);
    result := result + [cs];
    result := result + [FRAME_END];
  }

  /** The masking moves the delimiters only: they stand in the data field exactly for 0x35 and 0xE3. */
  lemma MaskedDelimiters(data: seq<byte>)
    ensures FRAME_START in BcdCodec.Add33(data) <==> 0x35 in data
    ensures FRAME_END in BcdCodec.Add33(data) <==> 0xE3 in data
  {
    var masked := BcdCodec.Add33(data);
    forall i | 0 <= i < |data|
      ensures (masked[i] == FRAME_START <==> data[i] == 0x35) && (masked[i] == FRAME_END <==> data[i] == 0xE3)
    {
    }
  }

  // ----- decoding -----

  function SkipPreamble(s: seq<byte>): (k: nat)
    ensures k <= |s|
    ensures forall i :: 0 <= i < k ==> s[i] == PREAMBLE
    ensures k < |s| ==> s[k] != PREAMBLE
  {
    if s == [] || s[0] != PREAMBLE then 0 else 1 + SkipPreamble(s[1..])
  }

  /** The frame that starts at the first byte of `s`, if a whole valid one does. */
  function DecodeCore(s: seq<byte>): Option<Frame> {
    if |s| < 12 || s[0] != FRAME_START || s[7] != FRAME_START then None
    else
      var n: int := s[9];
      if |s| < 12 + n || s[10 + n] != Checksum(s[..10 + n]) || s[11 + n] != FRAME_END then None
      else Some(Frame(s[1..7], s[8], BcdCodec.Sub33(s[10..10 + n])))
  }

  function Decode(s: seq<byte>): Option<Decoded> {
    var k := SkipPreamble(s);
    match DecodeCore(s[k..])
    case None => None
    case Some(f) => Some(Decoded(f, k + 12 + |f.data|))
  }

  method DecodeBytes(bytes: seq<byte>) returns (r: Option<Decoded>)
    ensures r == Decode(bytes)
  {
    hide DecodeCore;
    var pos := 0;
    while pos < |bytes| && bytes[pos] == PREAMBLE
      invariant 0 <= pos <= |bytes|
      invariant SkipPreamble(bytes) == pos + SkipPreamble(bytes[pos..])
    {
      assert bytes[pos..][1..] == bytes[pos + 1..];
      pos := pos + 1;
    }
    assert SkipPreamble(bytes) == pos;
    r := DecodeAt(bytes, pos);
  }

  /** The parser behind the leading FE bytes, with its cursor. */
  method DecodeAt(bytes: seq<byte>, start: nat) returns (r: Option<Decoded>)
    requires start <= |bytes|
    ensures var f := DecodeCore(bytes[start..]);
            r == if f.None? then None else Some(Decoded(f.value, start + 12 + |f.value.data|))
  {
    hide Checksum, BcdCodec.Sub33;
    var pos := start;
    ghost var s := bytes[pos..];
    if pos + 12 > |bytes| {
      return None;
    }
    if bytes[pos] != FRAME_START {
      return None;
    }
    pos := pos + 1;
    var address: Address := [0, 0, 0, 0, 0, 0];
    for i := 0 to 6
      invariant pos == start + 1 + i
      invariant forall j :: 0 <= j < i ==> address[j] == s[1 + j]
    {
      address := address[i := bytes[pos]];
      pos := pos + 1;
    }
    assert address == s[1..7];
    if bytes[pos] != FRAME_START {
      return None;
    }
    pos := pos + 1;
    var control := bytes[pos];
    pos := pos + 1;
    var n := bytes[pos];
    pos := pos + 1;
    if pos + n + 2 > |bytes| {
      return None;
    }
    var raw := bytes[pos..pos + n];
    assert raw == s[10..10 + n];
    var data := BcdCodec.UnmaskData(raw);
    pos := pos + n;
    assert bytes[start..pos] == s[..10 + n];
    var expected := CalcChecksum(bytes[start..pos]);
    ChecksumIsSum(bytes[start..pos]);
    if bytes[pos] != expected {
      return None;
    }
    pos := pos + 1;
    if bytes[pos] != FRAME_END {
      return None;
    }
    pos := pos + 1;
    return Some(Decoded(Frame(address, control, data), pos));
  }

  // ----- the bytes on the wire -----

  /** `t` is exactly what section 5.2 of DL/T 645-2007 prescribes for `f`. */
  predicate OnWire(t: seq<byte>, f: Frame) {
    var n := |f.data|;
    |t| == 12 + n && t[0] == 0x68 && t[1..7] == f.address && t[7] == 0x68 && t[8] == f.control && t[9] == n % 256 &&
    (forall i :: 0 <= i < n ==> t[10 + i] == (f.data[i] as int + 0x33) % 256) &&
    t[10 + n] == Sum(t[..10 + n]) % 256 && t[11 + n] == 0x16
  }

  lemma CoreIsOnWire(f: Frame)
    ensures OnWire(Core(f), f)
  {
    var g, n := Core(f), |f.data|;
    assert g[..10 + n] == Body(f);
    assert g[1..7] == f.address;
    assert forall i :: 0 <= i < n ==> g[10 + i] == BcdCodec.Add33(f.data)[i];
  }

  lemma OnWireIsCore(t: seq<byte>, f: Frame)
    requires OnWire(t, f)
    ensures t == Core(f)
  {
    hide Checksum;
    var n := |f.data|;
    assert t[10..10 + n] == BcdCodec.Add33(f.data);
    HeaderOf(t);
    assert t[..10 + n] == t[..10] + t[10..10 + n] == Body(f);
    assert t == t[..10 + n] + [t[10 + n], t[11 + n]];
    ChecksumIsSum(t[..10 + n]);
  }

  lemma ChecksumIsSum(s: seq<byte>)
    ensures Checksum(s) == Sum(s) % 256
  {
  }

  lemma HeaderOf(s: seq<byte>)
    requires |s| >= 10
    ensures s[..10] == [s[0]] + s[1..7] + [s[7], s[8], s[9]]
  {
  }

  /** An encoded frame is four bytes 0xFE and then its wire form. */
  lemma EncodedBytes(f: Frame)
    ensures var s := Encode(f); |s| == 16 + |f.data| && s[..4] == [0xFE, 0xFE, 0xFE, 0xFE] && OnWire(s[4..], f)
  {
    hide OnWire;
    CoreIsOnWire(f);
    assert Encode(f)[4..] == Core(f);
  }

  // ----- decoding is canonical -----

  /** `s` begins with `k` FE bytes and then the wire form of `f`. */
  predicate Carries(s: seq<byte>, k: nat, f: Frame) {
    |f.data| <= 255 && Repeat(PREAMBLE, k) + Core(f) <= s
  }

  lemma CoreDecodes(s: seq<byte>, f: Frame)
    requires |f.data| <= 255 && Core(f) <= s
    ensures DecodeCore(s) == Some(f)
  {
    var n := |f.data|;
    assert s[..12 + n] == Core(f);
    assert s[..10 + n] == Body(f);
    assert s[1..7] == f.address;
    assert s[9] == n;
    assert s[10..10 + n] == BcdCodec.Add33(f.data);
    BcdCodec.MaskingInverts(f.data);
  }

  lemma BodyIsPrefix(s: seq<byte>)
    requires DecodeCore(s).Some?
    ensures s[..10 + s[9] as int] == Body(DecodeCore(s).value)
  {
    hide Checksum;
    var n: int := s[9];
    BcdCodec.MaskingInverts(s[10..10 + n]);
    HeaderOf(s);
    assert s[..10 + n] == s[..10] + s[10..10 + n];
  }

  lemma DecodedIsCore(s: seq<byte>)
    requires DecodeCore(s).Some?
    ensures |DecodeCore(s).value.data| <= 255 && Core(DecodeCore(s).value) <= s
  {
    hide Checksum, Body;
    var n: int := s[9];
    BodyIsPrefix(s);
    assert s[..12 + n] == s[..10 + n] + [s[10 + n], s[11 + n]];
  }

  lemma PreambleLength(s: seq<byte>, k: nat)
    requires k < |s| && s[k] != PREAMBLE && Repeat(PREAMBLE, k) <= s
    ensures SkipPreamble(s) == k
  {
    assert forall i :: 0 <= i < k ==> s[i] == Repeat(PREAMBLE, k)[i];
  }

  lemma DecodedIsCarried(s: seq<byte>)
    requires Decode(s).Some?
    ensures var d := Decode(s).value;
            d.consumed >= |Core(d.frame)| && Carries(s, d.consumed - |Core(d.frame)|, d.frame)
  {
    hide DecodeCore, Core, SkipPreamble;
    var k := SkipPreamble(s);
    var f := Decode(s).value.frame;
    DecodedIsCore(s[k..]);
    assert s[..k] == Repeat(PREAMBLE, k);
    assert s[k..][..|Core(f)|] == Core(f);
    assert s[..k + |Core(f)|] == s[..k] + s[k..][..|Core(f)|];
  }

  /** Decoding yields `f` and `c` exactly when the first `c` bytes are FE..FE and the wire form of `f`. */
  lemma DecodeIsCanonical(s: seq<byte>, f: Frame, c: nat)
    ensures Decode(s) == Some(Decoded(f, c)) <==> c >= |Core(f)| && Carries(s, c - |Core(f)|, f)
  {
    if Decode(s) == Some(Decoded(f, c)) {
      DecodedIsCarried(s);
    }
    if c >= |Core(f)| && Carries(s, c - |Core(f)|, f) {
      CarriedDecodes(s, c - |Core(f)|, f);
    }
  }

  lemma CarriedDecodes(s: seq<byte>, k: nat, f: Frame)
    requires Carries(s, k, f)
    ensures Decode(s) == Some(Decoded(f, k + |Core(f)|))
  {
    var w := Repeat(PREAMBLE, k) + Core(f);
    assert s[..|w|] == w;
    assert s[k] == w[k] == FRAME_START;
    assert Repeat(PREAMBLE, k) <= s;
    PreambleLength(s, k);
    assert Core(f) == w[k..] <= s[k..];
    CoreDecodes(s[k..], f);
  }

  /** The same byte by byte: a frame comes out exactly when bytes 0xFE and then its bytes on the wire come first. */
  lemma DecodesIffOnWire(s: seq<byte>, f: Frame, c: nat)
    ensures Decode(s) == Some(Decoded(f, c)) <==>
            |f.data| <= 255 && 12 + |f.data| <= c <= |s| &&
            (forall i :: 0 <= i < c - 12 - |f.data| ==> s[i] == 0xFE) && OnWire(s[c - 12 - |f.data|..c], f)
  {
    hide Decode, Core, OnWire;
    DecodeIsCanonical(s, f, c);
    CoreIsOnWire(f);
    if c >= |Core(f)| {
      var k := c - |Core(f)|;
      CarriesIff(s, k, f);
      if c <= |s| && OnWire(s[k..c], f) {
        OnWireIsCore(s[k..c], f);
      }
    }
  }

  lemma CarriesIff(s: seq<byte>, k: nat, f: Frame)
    ensures Carries(s, k, f) <==>
            |f.data| <= 255 && k + |Core(f)| <= |s| && (forall i :: 0 <= i < k ==> s[i] == 0xFE) &&
            s[k..k + |Core(f)|] == Core(f)
  {
    hide Core;
    var w, c := Repeat(PREAMBLE, k) + Core(f), k + |Core(f)|;
    if w <= s {
      assert s[..c] == w;
      assert s[k..c] == w[k..] == Core(f);
      assert forall i :: 0 <= i < k ==> s[i] == w[i];
    }
    if c <= |s| && (forall i :: 0 <= i < k ==> s[i] == 0xFE) && s[k..c] == Core(f) {
      assert s[..k] == Repeat(PREAMBLE, k);
      assert s[..c] == s[..k] + s[k..c];
    }
  }

  /** Encoding and decoding are inverse exactly for the frames whose length fits its byte. */
  lemma RoundTripIffLengthFits(f: Frame)
    ensures Decode(Encode(f)) == Some(Decoded(f, |Encode(f)|)) <==> |f.data| <= 255
  {
    DecodeIsCanonical(Encode(f), f, |Encode(f)|);
  }

  lemma ConsumedWithinInput(s: seq<byte>)
    requires Decode(s).Some?
    ensures Decode(s).value.consumed <= |s|
  {
    var d := Decode(s).value;
    DecodeIsCanonical(s, d.frame, d.consumed);
  }

  /** Bytes that arrive later never change a successful decoding. */
  lemma DecodeIsPrefixStable(s: seq<byte>, more: seq<byte>)
    requires Decode(s).Some?
    ensures Decode(s + more) == Decode(s)
  {
    var d := Decode(s).value;
    DecodeIsCanonical(s, d.frame, d.consumed);
    DecodeIsCanonical(s + more, d.frame, d.consumed);
  }

  /** A frame is never recognised before its last byte. */
  lemma StrictPrefixDecodesToNothing(s: seq<byte>, k: nat, f: Frame)
    requires |f.data| <= 255 && s < Repeat(PREAMBLE, k) + Core(f)
    ensures Decode(s) == None
  {
    var w := Repeat(PREAMBLE, k) + Core(f);
    if Decode(s).Some? {
      ConsumedWithinInput(s);
      assert s + w[|s|..] == w;
      DecodeIsPrefixStable(s, w[|s|..]);
      CarriedDecodes(w, k, f);
    }
  }

  // ----- what the checksum detects -----

  /** `w` keeps the length byte, both start bytes and the end byte of the wire form of `f`. */
  predicate SameSkeleton(w: seq<byte>, f: Frame) {
    |w| == |Core(f)| && w[0] == FRAME_START && w[7] == FRAME_START &&
    w[9] == |f.data| && w[|w| - 1] == FRAME_END
  }

  /** Altered contents are accepted exactly when the body sum and the checksum byte moved alike modulo 256. */
  lemma AcceptedIffSumsAgree(f: Frame, w: seq<byte>, more: seq<byte>)
    requires |f.data| <= 255 && SameSkeleton(w, f)
    ensures var n := |w|; var g := Core(f);
            Decode(w + more).Some? <==>
            (Sum(w[..n - 2]) - Sum(g[..n - 2])) % 256 == (w[n - 2] as int - g[n - 2] as int) % 256
  {
    var n, g := |w|, Core(f);
    var s := w + more;
    PreambleLength(s, 0);
    assert s[0..] == s;
    assert s[..n - 2] == w[..n - 2];
    assert g[..n - 2] == Body(f);
    SumsAgree(Sum(w[..n - 2]), Sum(g[..n - 2]), w[n - 2]);
  }

  lemma SumsAgree(a: nat, b: nat, c: byte)
    ensures a % 256 == c <==> (a - b) % 256 == (c - b % 256) % 256
  {
    DifferenceMod(a, b);
    SameDifference(a % 256, c, b % 256);
  }

  lemma DifferenceMod(a: nat, b: nat)
    ensures (a - b) % 256 == (a % 256 - b % 256) % 256
  {
    var q, r := a / 256 - b / 256, a % 256 - b % 256;
    assert a - b == 256 * q + r;
    WholeTurns(q, r);
  }

  lemma WholeTurns(q: int, r: int)
    ensures (256 * q + r) % 256 == r % 256
  {
    assert (256 * q + r) / 256 == q + r / 256;
  }

  lemma SameDifference(x: byte, y: byte, z: byte)
    ensures (x as int - z as int) % 256 == (y as int - z as int) % 256 <==> x == y
  {
  }

  lemma {:induction false} SumAfterChange(s: seq<byte>, i: nat, b: byte)
    requires i < |s|
    ensures Sum(s[i := b]) == Sum(s) - s[i] + b
  {
    assert s == s[..i] + [s[i]] + s[i + 1..];
    assert s[i := b] == s[..i] + [b] + s[i + 1..];
    SumConcat(s[..i] + [s[i]], s[i + 1..]);
    SumConcat(s[..i] + [b], s[i + 1..]);
    SumConcat(s[..i], [s[i]]);
    SumConcat(s[..i], [b]);
    SumOne(s[i]);
    SumOne(b);
  }

  lemma SumOne(b: byte)
    ensures Sum([b]) == b
  {
    assert [b][..0] == [];
  }

  lemma DelimiterErrorRejected(f: Frame, i: nat, b: byte, more: seq<byte>)
    requires |f.data| <= 255 && (i == 0 || i == 7 || i == |Core(f)| - 1)
    requires b != Core(f)[i] && !(i == 0 && b == PREAMBLE)
    ensures Decode(Core(f)[i := b] + more) == None
  {
    var s := Core(f)[i := b] + more;
    assert s[0] == (if i == 0 then b else FRAME_START) && s[9] == |f.data| && s[i] == b;
    PreambleLength(s, 0);
    assert s[0..] == s;
  }

  /** Any one wrong byte is rejected whatever follows, but for the length byte and a first byte turned into FE. */
  lemma SingleByteErrorRejected(f: Frame, i: nat, b: byte, more: seq<byte>)
    requires |f.data| <= 255 && i < |Core(f)| && b != Core(f)[i]
    requires i != 9 && !(i == 0 && b == PREAMBLE)
    ensures Decode(Core(f)[i := b] + more) == None
  {
    hide Decode, Sum;
    var g := Core(f);
    var w := g[i := b];
    var n := |w|;
    if i == 0 || i == 7 || i == n - 1 {
      DelimiterErrorRejected(f, i, b, more);
    } else {
      AcceptedIffSumsAgree(f, w, more);
      NotCongruent(b, g[i]);
      if i == n - 2 {
        assert w[..n - 2] == g[..n - 2];
      } else {
        assert w[..n - 2] == g[..n - 2][i := b];
        SumAfterChange(g[..n - 2], i, b);
      }
    }
  }

  lemma NotCongruent(b: byte, c: byte)
    requires b != c
    ensures (b as int - c as int) % 256 != 0
  {
  }

  // ----- exactly which single-byte errors can pass -----

  /** Every check of the parser whose position falls inside `t` passes. */
  predicate Viable(t: seq<byte>) {
    (|t| > 0 ==> t[0] == FRAME_START) && (|t| > 7 ==> t[7] == FRAME_START) &&
    (|t| > 9 ==>
      var n: int := t[9];
      (|t| > 10 + n ==> t[10 + n] == Checksum(t[..10 + n])) && (|t| > 11 + n ==> t[11 + n] == FRAME_END))
  }

  lemma AcceptedIsViable(t: seq<byte>, more: seq<byte>)
    requires DecodeCore(t + more).Some?
    ensures Viable(t)
  {
    var s := t + more;
    if |t| > 9 && |t| > 10 + t[9] as int {
      assert s[..10 + s[9] as int] == t[..10 + t[9] as int];
    }
  }

  /** The bytes of a header from position `k` on. */
  function HeaderRest(k: nat): seq<byte> {
    if k >= 10 then [] else [FRAME_START, 0, 0, 0, 0, 0, 0, FRAME_START, 0, 0][k..]
  }

  lemma HeaderCompleted(t: seq<byte>)
    requires Viable(t)
    ensures |t + HeaderRest(|t|)| >= 10 && Viable(t + HeaderRest(|t|))
  {
    if |t| >= 10 {
      assert t + [] == t;
    }
  }

  lemma DataCompleted(t: seq<byte>) returns (more: seq<byte>)
    requires |t| >= 10 && Viable(t)
    ensures |t + more| >= 10 + t[9] as int && Viable(t + more)
  {
    var n: int := t[9];
    more := if |t| >= 10 + n then [] else Repeat(0, 10 + n - |t|);
    assert |t| >= 10 + n ==> t + more == t;
  }

  lemma TrailerCompleted(t: seq<byte>) returns (more: seq<byte>)
    requires |t| >= 10 && |t| >= 10 + t[9] as int && Viable(t)
    ensures DecodeCore(t + more).Some?
  {
    var n: int := t[9];
    var body := t[..10 + n];
    more := [Checksum(body), FRAME_END][if |t| >= 12 + n then 2 else |t| - (10 + n)..];
    var s := t + more;
    assert s[..10 + n] == body;
  }

  lemma ViableIsAccepted(t: seq<byte>) returns (more: seq<byte>)
    requires Viable(t)
    ensures DecodeCore(t + more).Some?
  {
    hide DecodeCore, Viable;
    var header := HeaderRest(|t|);
    HeaderCompleted(t);
    var data := DataCompleted(t + header);
    var trailer := TrailerCompleted(t + header + data);
    more := header + data + trailer;
    assert t + header + data + trailer == t + more;
  }

  /** Something can follow `w` with which a frame is decoded. */
  ghost predicate CanPass(w: seq<byte>) {
    exists more :: Decode(w + more).Some?
  }

  lemma PassingContinuation(w: seq<byte>, more: seq<byte>)
    requires Decode(w + more).Some?
    ensures CanPass(w)
  {
  }

  lemma DecodeBehindPreamble(w: seq<byte>, more: seq<byte>)
    requires w != [] && w[|w| - 1] != PREAMBLE
    ensures Decode(w + more).Some? <==> DecodeCore(w[SkipPreamble(w)..] + more).Some?
  {
    var k := SkipPreamble(w);
    assert w[..k] == Repeat(PREAMBLE, k);
    PreambleLength(w + more, k);
    DropOfConcat(w, more, k);
  }

  lemma CanPassIffViable(w: seq<byte>)
    requires w != [] && w[|w| - 1] != PREAMBLE
    ensures CanPass(w) <==> Viable(w[SkipPreamble(w)..])
  {
    hide Decode, DecodeCore, Viable, SkipPreamble;
    var t := w[SkipPreamble(w)..];
    if CanPass(w) {
      var more :| Decode(w + more).Some?;
      DecodeBehindPreamble(w, more);
      AcceptedIsViable(t, more);
    }
    if Viable(t) {
      var more := ViableIsAccepted(t);
      DecodeBehindPreamble(w, more);
      PassingContinuation(w, more);
    }
  }

  /**
   One wrong byte can be accepted, with the right bytes behind it, if and only if it is the length byte or a
   first byte turned into FE and every check that falls inside the altered frame still passes.
   */
  lemma SingleByteErrorPassesIff(f: Frame, i: nat, b: byte)
    requires |f.data| <= 255 && i < |Core(f)| && b != Core(f)[i]
    ensures var w := Core(f)[i := b];
            CanPass(w) <==> (i == 9 || (i == 0 && b == PREAMBLE)) && Viable(w[SkipPreamble(w)..])
  {
    hide Decode, Viable, SkipPreamble;
    var w := Core(f)[i := b];
    if i == 9 || (i == 0 && b == PREAMBLE) {
      CanPassIffViable(w);
    } else if CanPass(w) {
      var more :| Decode(w + more).Some?;
      SingleByteErrorRejected(f, i, b, more);
    }
  }

  /** An instance: every length byte that asks for two bytes more, or for more than that. */
  lemma LengthErrorCanPass(f: Frame, b: byte)
    requires |f.data| + 2 <= b
    ensures CanPass(Core(f)[9 := b])
  {
    hide Decode, Core;
    var w := Core(f)[9 := b];
    assert w[0] == FRAME_START && w[7] == FRAME_START && w[|w| - 1] == FRAME_END by {
      CoreEnds(f);
    }
    assert SkipPreamble(w) == 0 && w[0..] == w;
    CanPassIffViable(w);
  }

  lemma CoreEnds(f: Frame)
    ensures var g := Core(f);
            g[0] == FRAME_START && g[7] == FRAME_START && g[9] == |f.data| % 256 && g[|g| - 1] == FRAME_END
  {
  }

  /** An instance of the other kind: behind a first byte turned into FE the contents hold another frame. */
  lemma StartErrorCanPass()
    ensures var f := Frame([0x68, 0, 0, 0, 0, 0], 0x68, [205, 8, 227]); Decode(Core(f)[0 := PREAMBLE]).Some?
  {
    var f := Frame([0x68, 0, 0, 0, 0, 0], 0x68, [205, 8, 227]);
    var inner: seq<byte> := [0x68, 0, 0, 0, 0, 0, 0x68, 0x68, 3, 0];
    var s := Core(f)[0 := PREAMBLE];
    assert BcdCodec.Add33(f.data) == [0, 59, 22];
    assert s[1..11] == inner && s[11] == 59 && s[12] == 22;
    assert Sum(inner) == 315 by {
      assert inner == [0x68, 0, 0, 0, 0] + [0, 0x68, 0x68, 3, 0];
      SumConcat([0x68, 0, 0, 0, 0], [0, 0x68, 0x68, 3, 0]);
      SumFive(0x68, 0, 0, 0, 0);
      SumFive(0, 0x68, 0x68, 3, 0);
    }
    assert s[..1] == Repeat(PREAMBLE, 1) <= s;
    PreambleLength(s, 1);
    assert s[1..][..10] == inner;
  }

  lemma SumFive(a: byte, b: byte, c: byte, d: byte, e: byte)
    ensures Sum([a, b, c, d, e]) == a as int + b as int + c as int + d as int + e as int
  {
    assert [a, b, c, d, e][..4] == [a, b, c, d] && [a, b, c, d][..3] == [a, b, c];
    assert [a, b, c][..2] == [a, b] && [a, b][..1] == [a];
    SumOne(a);
    assert Sum([a, b, c]) == Sum([a, b]) + c as int;
    assert Sum([a, b, c, d]) == Sum([a, b, c]) + d as int;
  }
}
