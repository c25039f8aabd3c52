/** Binary-coded decimal in 64-bit arithmetic, and the 0x33 masking of the data field. */
module BcdCodec {
  import opened Bytes

  const MAX64: int := 0xFFFF_FFFF_FFFF_FFFF

  type uint64 = v: int | 0 <= v <= MAX64

  /** Reduction to 64 bits. */
  function Wrap64(n: nat): (r: uint64)
    ensures n <= MAX64 ==> r == n
  {
    n % (MAX64 + 1)
  }

  predicate ValidBcd(b: byte) {
    b / 16 <= 9 && b % 16 <= 9
  }

  predicate AllBcd(data: seq<byte>) {
    forall i :: 0 <= i < |data| ==> ValidBcd(data[i])
  }

  /** The two decimal digits of one byte. */
  function Pair(b: byte): nat {
    b / 16 * 10 + b % 16
  }

  // ----- decoding -----

  /** The accumulation from `value` on, guard and wrap-around included. */
  function DecodeFrom(value: uint64, data: seq<byte>): uint64
    decreases |data|
  {
    if data == [] then value
    else if !ValidBcd(data[0]) || value > MAX64 / 100 then 0
    else DecodeFrom(Wrap64(value * 100 + Pair(data[0])), data[1..])
  }

  function Decode(data: seq<byte>): uint64 {
    DecodeFrom(0, data)
  }

  method DecodeBytes(data: seq<byte>) returns (value: uint64)
    ensures value == Decode(data)
  {
    value := 0;
    var i := 0;
    while i < |data|
      invariant 0 <= i <= |data|
      invariant DecodeFrom(value, data[i..]) == Decode(data)
    {
      if !ValidBcd(data[i]) {
        return 0;
      }
      if value > MAX64 / 100 {
        return 0;
      }
      value := Wrap64(value * 100 + Pair(data[i]));
      assert data[i..][1..] == data[i + 1..];
      i := i + 1;
    }
  }

  /** Exact powers of ten; negative exponents give fractions. */
  function Pow10(n: int): (r: real)
    ensures r > 0.0
    decreases if n < 0 then -n else n
  {
    if n == 0 then 1.0 else if n > 0 then 10.0 * Pow10(n - 1) else Pow10(n + 1) / 10.0
  }

  lemma Pow10Step(n: int)
    ensures Pow10(n + 1) == 10.0 * Pow10(n)
  {
    if n < 0 {
      TenTimes(Pow10(n + 1));
    }
  }

  lemma TenTimes(x: real)
    ensures 10.0 * (x / 10.0) == x
  {
  }

  lemma Pow10Starts()
    ensures Pow10(0) == 1.0 && Pow10(1) == 10.0
  {
  }

  /** One more digit is one factor of ten, and exponents add up, negative ones included. */
  lemma {:induction false} Pow10IsPower(m: int, n: int)
    ensures Pow10(0) == 1.0 && Pow10(1) == 10.0
    ensures Pow10(m + n) == Pow10(m) * Pow10(n)
    decreases if n < 0 then -n else n
  {
    hide Pow10;
    Pow10Starts();
    if n > 0 {
      Pow10IsPower(m, n - 1);
      Pow10Step(m + n - 1);
      Pow10Step(n - 1);
      Reorder(Pow10(m), Pow10(n - 1));
    } else if n < 0 {
      Pow10IsPower(m, n + 1);
      Pow10Step(m + n);
      Pow10Step(n);
      Reorder(Pow10(m), Pow10(n));
    }
  }

  lemma Reorder(x: real, y: real)
    ensures x * (10.0 * y) == 10.0 * (x * y)
  {
  }

  /** The value of a low-byte-first field with `decimals` digits after the point. */
  function DecodeFloat(data: seq<byte>, decimals: int): real {
    Decode(Reverse(data)) as real / Pow10(decimals)
  }

  method DecodeFloatBytes(data: seq<byte>, decimals: int) returns (r: real)
    ensures r == DecodeFloat(data, decimals)
  {
    var value: uint64 := 0;
    var k := 0;
    while k < |data|
      invariant 0 <= k <= |data|
      invariant DecodeFrom(value, Reverse(data)[k..]) == Decode(Reverse(data))
    {
      var i := |data| - 1 - k;
      assert Reverse(data)[k..][0] == data[i];
      assert Reverse(data)[k..][1..] == Reverse(data)[k + 1..];
      if !ValidBcd(data[i]) {
        return 0.0;
      }
      if value > MAX64 / 100 {
        return 0.0;
      }
      value := Wrap64(value * 100 + Pair(data[i]));
      k := k + 1;
    }
    var scale := Pow10(decimals);
    r := value as real / scale;
  }

  // ----- what decoding means -----

  function Pow100(n: nat): (r: nat)
    ensures r >= 1
  {
    if n == 0 then 1 else 100 * Pow100(n - 1)
  }

  /** Two decimal digits are one factor of a hundred. */
  lemma {:induction false} Pow10OfPairs(n: nat)
    ensures Pow10(2 * n) == Pow100(n) as real
  {
    if n > 0 {
      Pow10OfPairs(n - 1);
      Pow10Step(2 * n - 2);
      Pow10Step(2 * n - 1);
    }
  }

  /** `v` is `number` with the decimal point moved by `decimals` digits, said without powers of ten. */
  ghost predicate PointMoved(v: real, number: nat, decimals: int) {
    forall n: nat ::
      (decimals == 2 * n ==> v * Pow100(n) as real == number as real) &&
      (decimals == 2 * n + 1 ==> v * Pow100(n) as real * 10.0 == number as real) &&
      (decimals == -2 * n ==> v == number as real * Pow100(n) as real) &&
      (decimals == -2 * n - 1 ==> v == number as real * Pow100(n) as real * 10.0)
  }

  lemma ScaledIsMoved(number: nat, decimals: int)
    ensures PointMoved(number as real / Pow10(decimals), number, decimals)
  {
    hide Pow10, Pow100;
    var x, v := number as real, number as real / Pow10(decimals);
    QuotientBack(x, Pow10(decimals));
    forall n: nat
      ensures decimals == 2 * n ==> v * Pow100(n) as real == x
      ensures decimals == 2 * n + 1 ==> v * Pow100(n) as real * 10.0 == x
      ensures decimals == -2 * n ==> v == x * Pow100(n) as real
      ensures decimals == -2 * n - 1 ==> v == x * Pow100(n) as real * 10.0
    {
      MovedLeft(v, x, decimals, n);
      MovedRight(v, x, decimals, n);
    }
  }

  lemma MovedLeft(v: real, x: real, decimals: int, n: nat)
    requires v * Pow10(decimals) == x
    ensures decimals == 2 * n ==> v * Pow100(n) as real == x
    ensures decimals == 2 * n + 1 ==> v * Pow100(n) as real * 10.0 == x
  {
    hide Pow10, Pow100;
    Pow10OfPairs(n);
    Pow10Step(2 * n);
    Rotate(v, Pow100(n) as real);
  }

  lemma MovedRight(v: real, x: real, decimals: int, n: nat)
    requires v * Pow10(decimals) == x
    ensures decimals == -2 * n ==> v == x * Pow100(n) as real
    ensures decimals == -2 * n - 1 ==> v == x * Pow100(n) as real * 10.0
  {
    hide Pow10, Pow100;
    Pow10OfPairs(n);
    Pow10Step(2 * n);
    if decimals == -2 * n {
      Pow10IsPower(decimals, 2 * n);
      Cancelled(v, Pow10(decimals), Pow10(2 * n), x);
    } else if decimals == -2 * n - 1 {
      Pow10IsPower(decimals, 2 * n + 1);
      Cancelled(v, Pow10(decimals), Pow10(2 * n + 1), x);
      Rotate(x, Pow100(n) as real);
    }
  }

  lemma QuotientBack(x: real, y: real)
    requires y > 0.0
    ensures x / y * y == x
  {
  }

  lemma Rotate(x: real, y: real)
    ensures x * (10.0 * y) == x * y * 10.0
  {
  }

  lemma Cancelled(v: real, y: real, z: real, x: real)
    requires v * y == x && y * z == 1.0
    ensures v == x * z
  {
    assert x * z == v * (y * z);
  }

  /** The positional value of a high-byte-first field, without any width limit. */
  function Value(data: seq<byte>): nat {
    if data == [] then 0 else Pair(data[0]) * Pow100(|data| - 1) + Value(data[1..])
  }

  /** Every accumulation step is on BCD, below the guard and inside 64 bits before any reduction. */
  predicate NeverWraps(value: nat, data: seq<byte>)
    decreases |data|
  {
    data == [] ||
    (ValidBcd(data[0]) && value <= MAX64 / 100 && value * 100 + Pair(data[0]) <= MAX64 &&
     NeverWraps(value * 100 + Pair(data[0]), data[1..]))
  }

  /** The same number by Horner's rule: what the accumulator would hold without a width limit. */
  function Horner(value: nat, data: seq<byte>): (r: nat)
    ensures r >= value
    decreases |data|
  {
    if data == [] then value else Horner(value * 100 + Pair(data[0]), data[1..])
  }

  lemma {:induction false} HornerIsPositional(value: nat, data: seq<byte>)
    ensures Horner(value, data) == value * Pow100(|data|) + Value(data)
    decreases |data|
  {
    if data != [] {
      HornerIsPositional(value * 100 + Pair(data[0]), data[1..]);
      Regroup(value, Pair(data[0]), Pow100(|data| - 1));
    }
  }

  lemma Regroup(value: nat, pair: nat, p: nat)
    ensures (value * 100 + pair) * p == value * (100 * p) + pair * p
  {
  }

  lemma {:induction false} NeverWrapsIffFits(value: uint64, data: seq<byte>)
    ensures NeverWraps(value, data) <==> AllBcd(data) && Horner(value, data) <= MAX64
    ensures NeverWraps(value, data) ==> DecodeFrom(value, data) == Horner(value, data)
    decreases |data|
  {
    if data != [] {
      assert AllBcd(data) <==> ValidBcd(data[0]) && AllBcd(data[1..]) by {
        assert forall i :: 1 <= i < |data| ==> data[i] == data[1..][i - 1];
      }
      if value * 100 + Pair(data[0]) <= MAX64 {
        NeverWrapsIffFits(value * 100 + Pair(data[0]), data[1..]);
      }
    }
  }

  /** On BCD input the 64-bit loop is exact precisely when the number fits in 64 bits. */
  lemma DecodeExactIffFits(data: seq<byte>)
    requires AllBcd(data)
    ensures Decode(data) == Value(data) <==> Value(data) <= MAX64
    ensures NeverWraps(0, data) <==> Value(data) <= MAX64
  {
    NeverWrapsIffFits(0, data);
    HornerIsPositional(0, data);
  }

  /** A byte that is not BCD anywhere in the field makes the result 0. */
  lemma {:induction false} InvalidDigitGivesZero(value: uint64, data: seq<byte>)
    requires !AllBcd(data)
    ensures DecodeFrom(value, data) == 0
    decreases |data|
  {
    if ValidBcd(data[0]) && value <= MAX64 / 100 {
      var k :| 0 <= k < |data| && !ValidBcd(data[k]);
      assert data[1..][k - 1] == data[k];
      InvalidDigitGivesZero(Wrap64(value * 100 + Pair(data[0])), data[1..]);
    }
  }

  lemma {:induction false} DecodeSnoc(value: uint64, data: seq<byte>, b: byte)
    requires NeverWraps(value, data) && ValidBcd(b) && DecodeFrom(value, data) <= MAX64 / 100
    ensures DecodeFrom(value, data + [b]) == Wrap64(DecodeFrom(value, data) * 100 + Pair(b))
    decreases |data|
  {
    if data == [] {
      assert data + [b] == [b];
      assert [b][1..] == [];
    } else {
      assert (data + [b])[1..] == data[1..] + [b];
      DecodeSnoc(value * 100 + Pair(data[0]), data[1..], b);
    }
  }

  // ----- what decoding makes of numbers that do not fit -----

  /** The accumulator reaches exactly the last value below the guard, and the next pair overflows 64 bits. */
  predicate WrapsAt(value: nat, data: seq<byte>, j: nat) {
    j < |data| && Horner(value, data[..j]) == MAX64 / 100 && Pair(data[j]) >= 16
  }

  ghost predicate Wraps(value: nat, data: seq<byte>) {
    exists j: nat :: WrapsAt(value, data, j)
  }

  lemma WrapsLater(value: nat, data: seq<byte>, j: nat)
    requires data != []
    ensures WrapsAt(value, data, j + 1) <==> WrapsAt(value * 100 + Pair(data[0]), data[1..], j)
  {
    if j + 1 < |data| {
      assert data[..j + 1][1..] == data[1..][..j];
    }
  }

  lemma AllBcdRest(data: seq<byte>)
    requires data != [] && AllBcd(data)
    ensures ValidBcd(data[0]) && Pair(data[0]) < 100 && AllBcd(data[1..])
  {
  }

  lemma WrapStep(value: nat, pair: nat)
    requires value == MAX64 / 100 && 16 <= pair < 100
    ensures Wrap64(value * 100 + pair) == pair - 16
  {
  }

  lemma DecodeStep(value: uint64, data: seq<byte>)
    requires data != [] && ValidBcd(data[0]) && value <= MAX64 / 100
    ensures DecodeFrom(value, data) == DecodeFrom(Wrap64(value * 100 + Pair(data[0])), data[1..])
  {
  }

  /** Such a pair makes the decoder start afresh behind it, from the pair less 16. */
  lemma {:induction false} WrapRestarts(value: uint64, data: seq<byte>, j: nat)
    requires AllBcd(data) && j < |data| && WrapsAt(value, data, j)
    ensures Pair(data[j]) >= 16 && DecodeFrom(value, data) == DecodeFrom(Pair(data[j]) - 16, data[j + 1..])
    decreases |data|
  {
    hide AllBcd, WrapsAt, Wrap64, DecodeFrom, ValidBcd;
    AllBcdRest(data);
    WrapsBelowGuard(value, data, j);
    DecodeStep(value, data);
    if j == 0 {
      WrapsAtZero(value, data);
      WrapStep(value, Pair(data[0]));
    } else {
      var next := value * 100 + Pair(data[0]);
      WrapsLater(value, data, j - 1);
      WrapsBelowGuard(next, data[1..], j - 1);
      WrapRestarts(next, data[1..], j - 1);
      assert data[1..][j..] == data[j + 1..];
    }
  }

  lemma WrapsAtZero(value: nat, data: seq<byte>)
    requires data != []
    ensures WrapsAt(value, data, 0) <==> value == MAX64 / 100 && Pair(data[0]) >= 16
  {
    assert data[..0] == [];
  }

  lemma WrapsBelowGuard(value: nat, data: seq<byte>, j: nat)
    requires WrapsAt(value, data, j)
    ensures value <= MAX64 / 100
  {
  }

  /** Every other BCD field whose number does not fit trips the guard. */
  lemma {:induction false} NoWrapGivesZero(value: uint64, data: seq<byte>)
    requires AllBcd(data) && Horner(value, data) > MAX64 && !Wraps(value, data)
    ensures DecodeFrom(value, data) == 0
    decreases |data|
  {
    hide AllBcd, WrapsAt, Wrap64;
    AllBcdRest(data);
    if value <= MAX64 / 100 {
      var next := value * 100 + Pair(data[0]);
      WrapsAtZero(value, data);
      forall j: nat | WrapsAt(next, data[1..], j) ensures WrapsAt(value, data, j + 1) {
        WrapsLater(value, data, j);
      }
      NoWrapGivesZero(next, data[1..]);
    }
  }

  lemma {:induction false} HornerSplit(value: nat, a: seq<byte>, b: seq<byte>)
    ensures Horner(value, a + b) == Horner(Horner(value, a), b)
    decreases |a|
  {
    if a == [] {
      assert a + b == b;
    } else {
      assert (a + b)[1..] == a[1..] + b;
      HornerSplit(value * 100 + Pair(a[0]), a[1..], b);
    }
  }

  /** The number that a restart leaves is the field's number less 2^64 at the weight of the pair. */
  lemma RestartValue(data: seq<byte>, j: nat)
    requires WrapsAt(0, data, j)
    ensures Horner(Pair(data[j]) - 16, data[j + 1..]) == Value(data) - (MAX64 + 1) * Pow100(|data| - 1 - j)
  {
    hide Horner, Value, Pow100;
    var rest, p, w := data[j + 1..], Pair(data[j]), Pow100(|data| - 1 - j);
    assert data == data[..j] + ([data[j]] + rest);
    HornerSplit(0, data[..j], [data[j]] + rest);
    HornerPair(MAX64 / 100, data[j], rest);
    HornerIsPositional(0, data);
    HornerIsPositional(MAX64 / 100 * 100 + p, rest);
    HornerIsPositional(p - 16, rest);
    assert MAX64 / 100 * 100 + p == (MAX64 + 1) + (p - 16);
    TimesSum(MAX64 + 1, p - 16, w);
  }

  lemma HornerPair(value: nat, b: byte, rest: seq<byte>)
    ensures Horner(value, [b] + rest) == Horner(value * 100 + Pair(b), rest)
  {
    assert ([b] + rest)[1..] == rest;
  }

  lemma TimesSum(a: int, b: int, w: int)
    ensures (a + b) * w == a * w + b * w
  {
  }

  /**
   BCD whose number does not fit in 64 bits reads as 0, unless some front part stands for exactly
   184467440737095516 and a pair of 16 or more follows; then it reads as what is left of the number when 2^64
   is taken away at that pair, if that fits.
   */
  lemma OverflowReads(data: seq<byte>)
    requires AllBcd(data) && Value(data) > MAX64
    ensures !Wraps(0, data) ==> Decode(data) == 0
    ensures forall j: nat :: WrapsAt(0, data, j) ==> RestartsAt(data, j)
  {
    hide AllBcd, WrapsAt, Wraps, RestartsAt;
    HornerIsPositional(0, data);
    if !Wraps(0, data) {
      NoWrapGivesZero(0, data);
    }
    forall j: nat | WrapsAt(0, data, j) ensures RestartsAt(data, j) {
      RestartHolds(data, j);
    }
  }

  /** The decoder starts afresh behind pair `j` and, if the rest fits, yields the number less 2^64 at that pair. */
  predicate RestartsAt(data: seq<byte>, j: nat) {
    j < |data| && Pair(data[j]) >= 16 &&
    Decode(data) == DecodeFrom(Pair(data[j]) - 16, data[j + 1..]) &&
    var left := Value(data) - (MAX64 + 1) * Pow100(|data| - 1 - j);
    left >= 0 && (Decode(data) == left <==> left <= MAX64)
  }

  lemma RestartHolds(data: seq<byte>, j: nat)
    requires AllBcd(data) && WrapsAt(0, data, j)
    ensures RestartsAt(data, j)
  {
    hide DecodeFrom, Horner, Value, Pow100;
    var rest := data[j + 1..];
    assert AllBcd(rest) && Pair(data[j]) < 100;
    WrapRestarts(0, data, j);
    RestartValue(data, j);
    NeverWrapsIffFits(Pair(data[j]) - 16, rest);
  }

  /** An instance: every pair from 16 on behind 184467440737095516 itself. */
  lemma OverflowCanWrap(pair: nat)
    requires 16 <= pair < 100
    ensures var data := Encode(MAX64 / 100, 9) + [Pack(pair)];
            AllBcd(data) && Value(data) == MAX64 / 100 * 100 + pair > MAX64 && Decode(data) == pair - 16
  {
    var front := Encode(MAX64 / 100, 9);
    EncodedValue(MAX64 / 100, 9);
    NinePairs(MAX64 / 100);
    PairPack(pair);
    DecodeExactIffFits(front);
    ValueSnoc(front, Pack(pair));
    DecodeSnoc(0, front, Pack(pair));
  }

  lemma NinePairs(value: nat)
    requires value < 1_000000_000000_000000
    ensures LowPairs(value, 9) == value
  {
    assert Pow100(2) == 10000;
    assert Pow100(4) == 1_0000_0000;
    assert Pow100(6) == 1_000000_000000;
    assert Pow100(8) == 1_0000_0000_0000_0000;
    assert Pow100(9) == 1_000000_000000_000000;
    LowPairsIsMod(value, 9);
    ModUnique(value, Pow100(9), 0, value);
  }

  lemma {:induction false} ValueBelow(data: seq<byte>)
    requires AllBcd(data)
    ensures Value(data) < Pow100(|data|)
  {
    if data != [] {
      AllBcdRest(data);
      ValueBelow(data[1..]);
      PairTimes(Pair(data[0]), Value(data[1..]), Pow100(|data| - 1));
    }
  }

  lemma PairTimes(pair: nat, rest: nat, p: nat)
    requires pair < 100 && rest < p
    ensures pair * p + rest < 100 * p
  {
    assert pair * p <= 99 * p;
  }

  /** What a low-byte-first field stands for: byte by byte, its two digits and a hundred times the rest. */
  function LowFirst(data: seq<byte>): nat {
    if data == [] then 0 else data[0] / 16 * 10 + data[0] % 16 + 100 * LowFirst(data[1..])
  }

  lemma {:induction false} ValueOfReversed(data: seq<byte>)
    ensures Value(Reverse(data)) == LowFirst(data)
  {
    if data == [] {
      assert Reverse(data) == [];
    } else {
      ValueOfReversed(data[1..]);
      ValueSnoc(Reverse(data[1..]), data[0]);
      assert Reverse(data) == Reverse(data[1..]) + [data[0]];
    }
  }

  /** Every field of up to nine bytes: the digits with the point moved if all are decimal, and otherwise zero. */
  lemma FloatOfNineBytes(data: seq<byte>, decimals: int)
    requires |data| <= 9
    ensures if forall i :: 0 <= i < |data| ==> data[i] / 16 <= 9 && data[i] % 16 <= 9
            then PointMoved(DecodeFloat(data, decimals), LowFirst(data), decimals)
            else DecodeFloat(data, decimals) == 0.0
  {
    hide Value, DecodeFrom, PointMoved, LowFirst, Pow10, Pow100;
    var digits := Reverse(data);
    if forall i :: 0 <= i < |data| ==> data[i] / 16 <= 9 && data[i] % 16 <= 9 {
      NineBytesFit(digits);
      ValueOfReversed(data);
      ScaledIsMoved(LowFirst(data), decimals);
    } else {
      var i :| 0 <= i < |data| && !(data[i] / 16 <= 9 && data[i] % 16 <= 9);
      assert digits[|data| - 1 - i] == data[i];
      InvalidDigitGivesZero(0, digits);
    }
  }

  /** A field of up to nine bytes always fits. */
  lemma NineBytesFit(data: seq<byte>)
    requires AllBcd(data) && |data| <= 9
    ensures Decode(data) == Value(data)
  {
    ValueBelow(data);
    assert Pow100(3) == 1_000000;
    assert Pow100(6) == 1_000000_000000;
    Pow100Grows(|data|, 9);
    assert Pow100(9) == 1_000000_000000_000000;
    DecodeExactIffFits(data);
  }

  lemma {:induction false} Pow100Grows(m: nat, n: nat)
    requires m <= n
    ensures Pow100(m) <= Pow100(n)
  {
    if m < n {
      Pow100Grows(m, n - 1);
    }
  }

  // ----- encoding -----

  /** Two decimal digits as one byte; `n` is below 100. */
  function Pack(n: nat): byte
    requires n < 100
  {
    n / 10 * 16 + n % 10
  }

  function Encode(value: nat, len: nat): (r: seq<byte>)
    ensures |r| == len
  {
    if len == 0 then [] else Encode(value / 100, len - 1) + [Pack(value % 100)]
  }

  method EncodeValue(value: uint64, len: nat) returns (r: seq<byte>)
    ensures r == Encode(value, len)
  {
    var out := new byte[len](_ => 0);
    var v := value;
    for k := 0 to len
      invariant 0 <= v <= MAX64
      invariant Encode(value, len) == Encode(v, len - k) + out[len - k..]
    {
      var i := len - 1 - k;
      ghost var done := out[len - k..];
      DigitByDigit(v);
      Assoc(Encode(v / 100, len - k - 1), [Pack(v % 100)], done);
      var digit2 := v % 10;
      v := v / 10;
      var digit1 := v % 10;
      v := v / 10;
      out[i] := digit1 * 16 + digit2;
      assert out[i..] == [out[i]] + done;
    }
    r := out[..];
    assert out[0..] == out[..];
  }

  lemma DigitByDigit(v: nat)
    ensures v / 10 / 10 == v / 100 && Pack(v % 100) == v / 10 % 10 * 16 + v % 10
  {
  }

  lemma {:induction false} ValueSnoc(data: seq<byte>, b: byte)
    ensures Value(data + [b]) == Value(data) * 100 + Pair(b)
  {
    hide Pair;
    if data == [] {
      assert data + [b] == [b];
      assert Value([b][1..]) == 0;
    } else {
      ValueSnoc(data[1..], b);
      assert (data + [b])[1..] == data[1..] + [b];
      ShiftPair(Pair(data[0]), Pow100(|data| - 1));
    }
  }

  lemma ShiftPair(pair: nat, p: nat)
    ensures pair * (100 * p) == pair * p * 100
  {
  }

  lemma ModStep(v: nat, m: nat)
    requires m >= 1
    ensures (v / 100 % m) * 100 + v % 100 == v % (100 * m)
  {
    var q := v / 100;
    var t := q % m;
    var a := q / m;
    assert q == a * m + t;
    assert v == a * (100 * m) + (t * 100 + v % 100) by {
      assert (a * m) * 100 == a * (100 * m);
    }
    assert t * 100 + v % 100 < 100 * m;
    ModUnique(v, 100 * m, a, t * 100 + v % 100);
  }

  lemma ModUnique(v: nat, m: nat, a: nat, r: nat)
    requires m >= 1 && r < m && v == a * m + r
    ensures v % m == r
  {
    var q, t := v / m, v % m;
    assert v == q * m + t;
    Distribute(q, a, m);
    SmallMultiple(q - a, m);
  }

  lemma Distribute(q: int, a: int, m: int)
    ensures (q - a) * m == q * m - a * m
  {
  }

  lemma SmallMultiple(d: int, m: int)
    requires m >= 1 && -m < d * m < m
    ensures d == 0
  {
    assert d >= 1 ==> d * m >= m;
    assert d <= -1 ==> d * m <= -m;
  }

  /** The last `len` pairs of decimal digits of a number. */
  function LowPairs(value: nat, len: nat): nat {
    if len == 0 then 0 else LowPairs(value / 100, len - 1) * 100 + value % 100
  }

  lemma {:induction false} LowPairsIsMod(value: nat, len: nat)
    ensures LowPairs(value, len) == value % Pow100(len)
  {
    if len > 0 {
      LowPairsIsMod(value / 100, len - 1);
      ModStep(value, Pow100(len - 1));
    }
  }

  lemma {:induction false} EncodedValue(value: nat, len: nat)
    ensures AllBcd(Encode(value, len))
    ensures Value(Encode(value, len)) == LowPairs(value, len)
  {
    if len > 0 {
      var front := Encode(value / 100, len - 1);
      var last := Pack(value % 100);
      EncodedValue(value / 100, len - 1);
      PairPack(value % 100);
      ValueSnoc(front, last);
    }
  }

  lemma PairPack(n: nat)
    requires n < 100
    ensures Pair(Pack(n)) == n && ValidBcd(Pack(n))
  {
  }

  /** Decoding an encoded value gives it back modulo 100^len; no step of the decoder wraps or trips its guard. */
  lemma DecodeEncode(value: uint64, len: nat)
    ensures Decode(Encode(value, len)) == value % Pow100(len)
    ensures NeverWraps(0, Encode(value, len))
  {
    EncodedValue(value, len);
    LowPairsIsMod(value, len);
    DecodeExactIffFits(Encode(value, len));
    ModAtMost(value, Pow100(len));
  }

  lemma ModAtMost(v: nat, m: nat)
    requires m >= 1
    ensures v % m <= v
  {
    if v < m {
      ModUnique(v, m, 0, v);
    }
  }

  // ----- 0x33 masking -----

  function Add33(data: seq<byte>): (r: seq<byte>)
    ensures |r| == |data|
  {
    seq(|data|, i requires 0 <= i < |data| => (data[i] as int + 0x33) % 256)
  }

  function Sub33(data: seq<byte>): (r: seq<byte>)
    ensures |r| == |data|
  {
    seq(|data|, i requires 0 <= i < |data| => (data[i] as int - 0x33) % 256)
  }

  method MaskData(data: seq<byte>) returns (out: seq<byte>)
    ensures out == Add33(data)
  {
    out := [];
    for i := 0 to |data|
      invariant out == Add33(data)[..i]
    {
      out := out + [(data[i] as int + 0x33) % 256];
    }
  }

  method UnmaskData(data: seq<byte>) returns (out: seq<byte>)
    ensures out == Sub33(data)
  {
    out := [];
    for i := 0 to |data|
      invariant out == Sub33(data)[..i]
    {
      out := out + [(data[i] as int - 0x33) % 256];
    }
  }

  lemma ByteMaskingInverts(b: byte)
    ensures ((b as int + 0x33) % 256 - 0x33) % 256 == b
    ensures ((b as int - 0x33) % 256 + 0x33) % 256 == b
  {
  }

  /** Masking and unmasking are inverse in both orders. */
  lemma MaskingInverts(data: seq<byte>)
    ensures Sub33(Add33(data)) == data
    ensures Add33(Sub33(data)) == data
  {
    forall i | 0 <= i < |data|
      ensures Sub33(Add33(data))[i] == data[i] && Add33(Sub33(data))[i] == data[i]
    {
      ByteMaskingInverts(data[i]);
    }
  }
}
