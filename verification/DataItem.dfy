/** A data identifier with the length, scale and unit of its value. */
module DataItem {
  import opened Bytes
  import BcdCodec

  type uint32 = v: int | 0 <= v < 0x1_0000_0000

  /** `dataLength` counts value bytes and is used unchecked by its readers, hence `nat`. */
  datatype DataItem = DataItem(
    di: uint32, name: string, dataLength: nat, decimalDigits: int, unit: string, enabled: bool)

  function EncodeDi(di: uint32): (r: seq<byte>)
    ensures |r| == 4
  {
    [di % 0x100, di / 0x100 % 0x100, di / 0x1_0000 % 0x100, di / 0x100_0000 % 0x100]
  }

  /** The number that four identifier bytes stand for, low byte first. */
  function DiValue(b: seq<byte>): uint32
    requires |b| == 4
  {
    b[0] as int + b[1] as int * 0x100 + b[2] as int * 0x1_0000 + b[3] as int * 0x100_0000
  }

  /** Four bytes that stand for the identifier when they are read low byte first. */
  method EncodeIdentifier(item: DataItem) returns (result: seq<byte>)
    ensures |result| == 4
    ensures result[0] as int + 0x100 * result[1] as int + 0x1_0000 * result[2] as int + 0x100_0000 * result[3] as int
         == item.di
  {
    result := [0, 0, 0, 0];
    result := result[0 := item.di % 0x100];
    result := result[1 := item.di / 0x100 % 0x100];
    result := result[2 := item.di / 0x1_0000 % 0x100];
    result := result[3 := item.di / 0x100_0000 % 0x100];
    assert result == EncodeDi(item.di);
    IdentifierBijection(item.di, result);
  }

  /** Identifiers and four-byte strings correspond one to one. */
  lemma IdentifierBijection(di: uint32, b: seq<byte>)
    requires |b| == 4
    ensures DiValue(EncodeDi(di)) == di
    ensures EncodeDi(DiValue(b)) == b
  {
    QuotientChain(di);
    var v: int := DiValue(b);
    QuotientChain(v);
    LowByte(b[0], b[1] as int + b[2] as int * 0x100 + b[3] as int * 0x1_0000);
    LowByte(b[1], b[2] as int + b[3] as int * 0x100);
    LowByte(b[2], b[3]);
  }

  lemma QuotientChain(v: nat)
    ensures v / 0x1_0000 == v / 0x100 / 0x100 && v / 0x100_0000 == v / 0x1_0000 / 0x100
  {
  }

  lemma LowByte(low: byte, high: nat)
    ensures (low + high * 0x100) % 0x100 == low && (low + high * 0x100) / 0x100 == high
  {
  }

  function DecodeValue(item: DataItem, raw: seq<byte>): real {
    if raw == [] then 0.0 else BcdCodec.DecodeFloat(raw, item.decimalDigits)
  }

  /** A value written low byte first in `dataLength` BCD bytes is read back exactly. */
  lemma ValueReadBack(item: DataItem, value: BcdCodec.uint64)
    requires value < BcdCodec.Pow100(item.dataLength)
    ensures DecodeValue(item, Reverse(BcdCodec.Encode(value, item.dataLength)))
         == value as real / BcdCodec.Pow10(item.decimalDigits)
  {
    var data := BcdCodec.Encode(value, item.dataLength);
    assert Reverse(Reverse(data)) == data;
    BcdCodec.DecodeEncode(value, item.dataLength);
    BcdCodec.ModUnique(value, BcdCodec.Pow100(item.dataLength), 0, value);
  }

  lemma DivideCancels(a: real, b: real, scale: real)
    requires scale > 0.0
    ensures a / scale == b / scale <==> a == b
  {
    assert a == a / scale * scale && b == b / scale * scale;
  }

  /**
   A BCD field reads as exactly its number over the scale if and only if that number fits in 64 bits, as it
   always does in nine bytes; otherwise it reads as 0, or as the number less 2^64 at the pair that wraps.
   */
  lemma ValueExactIffFits(item: DataItem, raw: seq<byte>)
    requires BcdCodec.AllBcd(raw)
    ensures var digits := Reverse(raw); var scale := BcdCodec.Pow10(item.decimalDigits);
            var number := BcdCodec.Value(digits);
            DecodeValue(item, raw) == BcdCodec.Decode(digits) as real / scale &&
            (DecodeValue(item, raw) == number as real / scale <==> number <= BcdCodec.MAX64) &&
            (|raw| <= 9 ==> number <= BcdCodec.MAX64) &&
            (number > BcdCodec.MAX64 && !BcdCodec.Wraps(0, digits) ==> DecodeValue(item, raw) == 0.0) &&
            (number > BcdCodec.MAX64 ==>
              forall j: nat :: BcdCodec.WrapsAt(0, digits, j) ==> BcdCodec.RestartsAt(digits, j))
  {
    hide BcdCodec.Value, BcdCodec.DecodeFrom, BcdCodec.Wraps, BcdCodec.WrapsAt, BcdCodec.RestartsAt, BcdCodec.Pow10;
    var digits, scale := Reverse(raw), BcdCodec.Pow10(item.decimalDigits);
    EmptyReadsZero(item, raw);
    BcdCodec.DecodeExactIffFits(digits);
    DivideCancels(BcdCodec.Decode(digits) as real, BcdCodec.Value(digits) as real, scale);
    if |raw| <= 9 {
      BcdCodec.NineBytesFit(digits);
    }
    if BcdCodec.Value(digits) > BcdCodec.MAX64 {
      BcdCodec.OverflowReads(digits);
    }
  }

  lemma EmptyReadsZero(item: DataItem, raw: seq<byte>)
    ensures DecodeValue(item, raw) == BcdCodec.Decode(Reverse(raw)) as real / BcdCodec.Pow10(item.decimalDigits)
  {
    assert raw == [] ==> BcdCodec.Decode(Reverse(raw)) == 0;
  }

  lemma InvalidValueIsZero(item: DataItem, raw: seq<byte>)
    requires !BcdCodec.AllBcd(raw)
    ensures DecodeValue(item, raw) == 0.0
  {
    var k :| 0 <= k < |raw| && !BcdCodec.ValidBcd(raw[k]);
    assert Reverse(raw)[|raw| - 1 - k] == raw[k];
    BcdCodec.InvalidDigitGivesZero(0, Reverse(raw));
  }
}
