/** One read transaction: request, reply, validation and value. */
module MeterReader {
  import opened Bytes
  import opened Address
  import opened DataItem
  import opened FrameCodec
  import opened FrameTransceiver
  import BcdCodec
  import Reassembly

  const CTRL_READ_DATA: byte := 0x11
  const CTRL_READ_DATA_OK: byte := 0x91
  const CTRL_READ_DATA_ERR: byte := 0xD1

  datatype ErrorCode =
    Success | SendFailed | Timeout | AddressMismatch | ErrorResponse | DataMismatch | DecodeFailed

  datatype ReadResult = ReadResult(value: real, unit: string)

  datatype Reading = Reading(code: ErrorCode, result: Option<ReadResult>)

  function BuildRequest(address: Address, item: DataItem): Frame {
    Frame(address, CTRL_READ_DATA, EncodeDi(item.di))
  }

  function Validate(response: Frame, address: Address, item: DataItem): ErrorCode {
    if response.address != address then AddressMismatch
    else if response.control != CTRL_READ_DATA_OK then ErrorResponse
    else if |response.data| < 4 || response.data[..4] != EncodeDi(item.di) then DataMismatch
    else Success
  }

  method ValidateResponse(response: Frame, address: Address, item: DataItem) returns (code: ErrorCode)
    ensures code == Validate(response, address, item)
  {
    if response.address != address {
      return AddressMismatch;
    }
    if response.control == CTRL_READ_DATA_ERR {
      return ErrorResponse;
    }
    if response.control != CTRL_READ_DATA_OK {
      return ErrorResponse;
    }
    if |response.data| < 4 {
      return DataMismatch;
    }
    var expected := EncodeIdentifier(item);
    IdentifierBijection(item.di, expected);
    for i := 0 to 4
      invariant response.data[..i] == expected[..i]
    {
      if response.data[i] != expected[i] {
        assert response.data[..4][i] != expected[i];
        return DataMismatch;
      }
    }
    return Success;
  }

  /** What a read makes of the frame it received, if any. */
  function Interpret(response: Option<Frame>, address: Address, item: DataItem): Reading {
    if response.None? then Reading(Timeout, None)
    else
      var f := response.value;
      var code := Validate(f, address, item);
      if code != Success then Reading(code, None)
      else if |f.data| < 4 + item.dataLength then Reading(DecodeFailed, None)
      else Reading(Success, Some(ReadResult(DecodeValue(item, f.data[4..4 + item.dataLength]), item.unit)))
  }

  /** The transaction as a whole; `chunks` is what arrives between the send and the deadline. */
  function Read(address: Address, item: DataItem, sendOk: bool, isOpen: bool, chunks: seq<seq<byte>>): Reading {
    if !sendOk then Reading(SendFailed, None)
    else Interpret(if isOpen then Receive([], chunks).frame else None, address, item)
  }

  class Reader {
    const transceiver: Transceiver

    constructor (transceiver: Transceiver)
      ensures this.transceiver == transceiver
    {
      this.transceiver := transceiver;
    }

    /** Whatever the transceiver holds from earlier exchanges has no influence on the result. */
    method ReadData(address: Address, item: DataItem, sendOk: bool, isOpen: bool, chunks: seq<seq<byte>>)
      returns (reading: Reading, wire: seq<byte>)
      modifies transceiver
      ensures transceiver.Valid()
      ensures wire == Encode(BuildRequest(address, item))
      ensures reading == Read(address, item, sendOk, isOpen, chunks)
      ensures sendOk && isOpen ==> transceiver.received == Flatten(chunks[..Receive([], chunks).used])
    {
      hide Receive, Validate, DecodeValue, Core, FrameCodec.Encode, EncodeDi, Accounted, Flatten;
      var request := BuildRequest(address, item);
      var sent;
      wire, sent := transceiver.SendFrame(request, sendOk);
      if !sent {
        return Reading(SendFailed, None), wire;
      }
      var response, used := transceiver.ReceiveFrame(isOpen, chunks);
      if response.None? {
        return Reading(Timeout, None), wire;
      }
      var code := ValidateResponse(response.value, address, item);
      if code != Success {
        return Reading(code, None), wire;
      }
      if |response.value.data| < 4 + item.dataLength {
        return Reading(DecodeFailed, None), wire;
      }
      var bytes := response.value.data[4..4 + item.dataLength];
      return Reading(Success, Some(ReadResult(DecodeValue(item, bytes), item.unit))), wire;
    }
  }

  /** A meter that decodes the request finds its own address, the read code and exactly the identifier asked for. */
  lemma RequestReadsBack(address: Address, item: DataItem)
    ensures var d := Decode(Encode(BuildRequest(address, item)));
            d.Some? && d.value.frame.address == address && d.value.frame.control == CTRL_READ_DATA &&
            |d.value.frame.data| == 4 && DiValue(d.value.frame.data) == item.di
  {
    RoundTripIffLengthFits(BuildRequest(address, item));
    IdentifierBijection(item.di, EncodeDi(item.di));
  }

  /** The request byte by byte: leading bytes, address, control code 0x11, four bytes of identifier, byte sum, end. */
  lemma RequestBytes(address: Address, item: DataItem)
    ensures var s := Encode(BuildRequest(address, item)); var d := BcdCodec.Sub33(s[14..18]);
            |s| == 20 && s[..4] == [0xFE, 0xFE, 0xFE, 0xFE] && s[4] == 0x68 && s[5..11] == address &&
            s[11..14] == [0x68, 0x11, 0x04] && s[18] == Sum(s[4..18]) % 256 && s[19] == 0x16 &&
            d[0] as int + 0x100 * d[1] as int + 0x1_0000 * d[2] as int + 0x100_0000 * d[3] as int == item.di
  {
    hide Core, FrameCodec.Encode, EncodeDi, OnWire, Sum, BcdCodec.Sub33;
    var f := BuildRequest(address, item);
    var s := Encode(f);
    EncodedBytes(f);
    var t := s[4..];
    ShortFrameBytes(t, f);
    assert s[5..11] == t[1..7] && s[11..14] == t[7..10] && s[4..18] == t[..14] && s[14..18] == t[10..14];
    IdentifierBijection(item.di, EncodeDi(item.di));
  }

  lemma ShortFrameBytes(t: seq<byte>, f: Frame)
    requires OnWire(t, f) && |f.data| == 4
    ensures |t| == 16 && t[0] == 0x68 && t[1..7] == f.address && t[7..10] == [0x68, f.control, 4]
    ensures BcdCodec.Sub33(t[10..14]) == f.data && t[14] == Sum(t[..14]) % 256 && t[15] == 0x16
  {
    hide Sum;
    assert t[7..10] == [t[7], t[8], t[9]];
    assert t[10..14] == BcdCodec.Add33(f.data);
    BcdCodec.MaskingInverts(f.data);
  }

  // ----- soundness -----

  /** The first four data bytes are the identifier, low byte first. */
  predicate IdentifierSent(data: seq<byte>, di: uint32)
    requires |data| >= 4
  {
    data[0] as int + 0x100 * data[1] as int + 0x1_0000 * data[2] as int + 0x100_0000 * data[3] as int == di
  }

  /** A reply to a request: right address and identifier, a normal control code and enough value bytes. */
  predicate Answers(f: Frame, address: Address, item: DataItem) {
    f.address == address && f.control == 0x91 &&
    |f.data| >= 4 + item.dataLength && IdentifierSent(f.data, item.di)
  }

  /** Success exactly when the frame that the receive loop hands over is a reply to this request. */
  lemma SucceedsIffAnswered(address: Address, item: DataItem, chunks: seq<seq<byte>>)
    ensures Read(address, item, true, true, chunks).code == Success <==>
            Receive([], chunks).frame.Some? && Answers(Receive([], chunks).frame.value, address, item)
  {
    if Receive([], chunks).frame.Some? {
      SuccessMeansAnswers(Receive([], chunks).frame.value, address, item);
    }
  }

  lemma SuccessMeansAnswers(f: Frame, address: Address, item: DataItem)
    ensures Interpret(Some(f), address, item).code == Success <==> Answers(f, address, item)
  {
    if |f.data| >= 4 {
      IdentifierBijection(item.di, f.data[..4]);
    }
  }

  /** A reply `f` lies at position `q` of `stream`, and `reading` is the value of its first `dataLength` bytes. */
  predicate Justifies(stream: seq<byte>, q: nat, f: Frame, address: Address, item: DataItem, reading: Reading) {
    Reassembly.FrameAt(stream, q, f) && Answers(f, address, item) &&
    reading == Reading(Success, Some(ReadResult(DecodeValue(item, f.data[4..4 + item.dataLength]), item.unit)))
  }

  /** Somewhere in `stream` lies a reply whose value is `reading`. */
  ghost predicate Justified(stream: seq<byte>, address: Address, item: DataItem, reading: Reading) {
    exists q: nat, f :: Justifies(stream, q, f, address, item, reading)
  }

  /**
   Success means that the bytes received after the request contain a whole, checksum-valid reply, and
   that the result is the value of exactly the first `dataLength` bytes after its identifier.
   */
  lemma ReadIsSound(address: Address, item: DataItem, sendOk: bool, isOpen: bool, chunks: seq<seq<byte>>)
    requires Read(address, item, sendOk, isOpen, chunks).code == Success
    ensures sendOk && isOpen
    ensures Justified(Flatten(chunks[..Receive([], chunks).used]), address, item,
                      Read(address, item, sendOk, isOpen, chunks))
  {
    var f := Receive([], chunks).frame.value;
    var q := Reassembly.ReturnedFrameInStream(chunks);
    AnswerJustifies(Flatten(chunks[..Receive([], chunks).used]), q, f, address, item);
  }

  lemma AnswerJustifies(stream: seq<byte>, q: nat, f: Frame, address: Address, item: DataItem)
    requires Reassembly.FrameAt(stream, q, f) && Interpret(Some(f), address, item).code == Success
    ensures Justified(stream, address, item, Interpret(Some(f), address, item))
  {
    SuccessMeansAnswers(f, address, item);
    assert Justifies(stream, q, f, address, item, Interpret(Some(f), address, item));
  }

  /** The cause of a code, for a received frame: the first check that fails, in the order of the checks. */
  predicate FailsFor(code: ErrorCode, f: Frame, address: Address, item: DataItem) {
    var ours := f.address == address;
    var normal := ours && f.control == 0x91;
    var wanted := normal && |f.data| >= 4 && IdentifierSent(f.data, item.di);
    (code == AddressMismatch <==> !ours) &&
    (code == ErrorResponse <==> ours && !normal) &&
    (code == DataMismatch <==> normal && !wanted) &&
    (code == DecodeFailed <==> wanted && |f.data| < 4 + item.dataLength)
  }

  /** Each failure is reported for exactly its cause, the first in the order of the checks. */
  lemma FailureReasons(address: Address, item: DataItem, sendOk: bool, isOpen: bool, chunks: seq<seq<byte>>)
    ensures var reading := Read(address, item, sendOk, isOpen, chunks);
            var frame := if isOpen then Receive([], chunks).frame else None;
            (reading.code == SendFailed <==> !sendOk) &&
            (reading.code == Timeout <==> sendOk && frame.None?) &&
            (sendOk && frame.Some? ==> FailsFor(reading.code, frame.value, address, item)) &&
            (reading.result.Some? <==> reading.code == Success)
  {
    if isOpen && Receive([], chunks).frame.Some? {
      var f := Receive([], chunks).frame.value;
      if |f.data| >= 4 {
        IdentifierBijection(item.di, f.data[..4]);
      }
    }
  }

  // ----- end to end -----

  /** The meter's normal answer: the identifier, then the value in low-byte-first BCD. */
  function Reply(address: Address, item: DataItem, value: nat): Frame {
    Frame(address, CTRL_READ_DATA_OK, EncodeDi(item.di) + Reverse(BcdCodec.Encode(value, item.dataLength)))
  }

  /** Any preamble, any fragmentation and anything behind the reply: the meter's value comes out exactly. */
  lemma ReadEndToEnd(
      address: Address, item: DataItem, value: BcdCodec.uint64, chunks: seq<seq<byte>>, k: nat, tail: seq<byte>)
    requires item.dataLength <= 251 && value < BcdCodec.Pow100(item.dataLength)
    requires Flatten(chunks) == Repeat(PREAMBLE, k) + Core(Reply(address, item, value)) + tail
    ensures var number := value as real / BcdCodec.Pow10(item.decimalDigits);
            Read(address, item, true, true, chunks) == Reading(Success, Some(ReadResult(number, item.unit))) &&
            BcdCodec.PointMoved(number, value, item.decimalDigits)
  {
    hide Receive, Core, BcdCodec.PointMoved, BcdCodec.Pow10, BcdCodec.Pow100, DecodeValue, EncodeDi;
    hide BcdCodec.Encode;
    BcdCodec.ScaledIsMoved(value, item.decimalDigits);
    var f := Reply(address, item, value);
    Reassembly.ChunkingIndependence(chunks, k, f, tail);
    ValueReadBack(item, value);
    assert f.data[..4] == EncodeDi(item.di);
    assert f.data[4..4 + item.dataLength] == Reverse(BcdCodec.Encode(value, item.dataLength));
  }

  /**
   Any reply, byte by byte and in any pieces: bytes 0xFE, the bytes on the wire of a frame with this address, code
   0x91, the identifier and enough value bytes, and anything behind them. A value field of up to nine bytes reads as
   its decimal digits with the point moved, or as zero when a digit is not decimal.
   */
  lemma ReplyBytesAreRead(
      address: Address, item: DataItem, f: Frame, t: seq<byte>, chunks: seq<seq<byte>>, k: nat, tail: seq<byte>)
    requires OnWire(t, f) && |f.data| <= 255 && Flatten(chunks) == Repeat(0xFE, k) + t + tail
    requires f.address == address && f.control == 0x91 && |f.data| >= 4 + item.dataLength
    requires IdentifierSent(f.data, item.di)
    ensures var raw := f.data[4..4 + item.dataLength]; var reading := Read(address, item, true, true, chunks);
            reading == Reading(Success, Some(ReadResult(DecodeValue(item, raw), item.unit))) &&
            (item.dataLength <= 9 ==>
              if forall i :: 0 <= i < |raw| ==> raw[i] / 16 <= 9 && raw[i] % 16 <= 9
              then BcdCodec.PointMoved(reading.result.value.value, BcdCodec.LowFirst(raw), item.decimalDigits)
              else reading.result.value.value == 0.0)
  {
    hide Receive, Core, OnWire, DecodeValue, BcdCodec.PointMoved, BcdCodec.LowFirst, IdentifierSent;
    OnWireIsCore(t, f);
    Reassembly.ChunkingIndependence(chunks, k, f, tail);
    SuccessMeansAnswers(f, address, item);
    if item.dataLength <= 9 {
      ShortValue(item, f.data[4..4 + item.dataLength]);
    }
  }

  lemma ShortValue(item: DataItem, raw: seq<byte>)
    requires |raw| <= 9
    ensures if forall i :: 0 <= i < |raw| ==> raw[i] / 16 <= 9 && raw[i] % 16 <= 9
            then BcdCodec.PointMoved(DecodeValue(item, raw), BcdCodec.LowFirst(raw), item.decimalDigits)
            else DecodeValue(item, raw) == 0.0
  {
    hide BcdCodec.PointMoved, BcdCodec.LowFirst;
    EmptyReadsZero(item, raw);
    BcdCodec.FloatOfNineBytes(raw, item.decimalDigits);
  }

  /** What a field whose number does not fit in 64 bits reads as. */
  ghost predicate ReadsZeroOrWraps(digits: seq<byte>, value: real) {
    (!BcdCodec.Wraps(0, digits) ==> value == 0.0) &&
    forall j: nat :: BcdCodec.WrapsAt(0, digits, j) ==> BcdCodec.RestartsAt(digits, j)
  }

  /**
   A reply whose value field is BCD: the read succeeds with exactly the number sent over the scale if and only
   if that number fits in 64 bits, and otherwise with 0 or with the number less 2^64 at the pair that wraps.
   */
  lemma ReplyExactIffFits(f: Frame, address: Address, item: DataItem)
    requires Answers(f, address, item) && BcdCodec.AllBcd(f.data[4..4 + item.dataLength])
    ensures var digits := Reverse(f.data[4..4 + item.dataLength]); var number := BcdCodec.Value(digits);
            var scale := BcdCodec.Pow10(item.decimalDigits); var reading := Interpret(Some(f), address, item);
            reading == Reading(Success, Some(ReadResult(BcdCodec.Decode(digits) as real / scale, item.unit))) &&
            (reading.result.value.value == number as real / scale <==> number <= BcdCodec.MAX64) &&
            (number > BcdCodec.MAX64 ==> ReadsZeroOrWraps(digits, reading.result.value.value))
  {
    hide BcdCodec.Value, BcdCodec.DecodeFrom, BcdCodec.Wraps, BcdCodec.WrapsAt, BcdCodec.RestartsAt, BcdCodec.Pow10;
    SuccessMeansAnswers(f, address, item);
    ValueExactIffFits(item, f.data[4..4 + item.dataLength]);
  }

  /** A reply whose value field is not BCD is not reported as an error: it reads as zero. */
  lemma InvalidDigitsReadAsZero(f: Frame, address: Address, item: DataItem)
    requires Answers(f, address, item) && !BcdCodec.AllBcd(f.data[4..4 + item.dataLength])
    ensures Interpret(Some(f), address, item) == Reading(Success, Some(ReadResult(0.0, item.unit)))
  {
    SuccessMeansAnswers(f, address, item);
    InvalidValueIsZero(item, f.data[4..4 + item.dataLength]);
  }
}
