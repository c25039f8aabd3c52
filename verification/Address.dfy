/** Meter addresses: six BCD bytes, low byte first, shown as twelve digits, high digit first. */
module Address {
  import opened Bytes
  import BcdCodec

  type Address = a: seq<byte> | |a| == 6 witness [0, 0, 0, 0, 0, 0]

  predicate IsDecimalDigit(c: char) {
    '0' <= c <= '9'
  }

  predicate IsHexDigit(c: char) {
    '0' <= c <= '9' || 'A' <= c <= 'F' || 'a' <= c <= 'f'
  }

  function HexValue(c: char): int {
    if '0' <= c <= '9' then c as int - '0' as int
    else if 'A' <= c <= 'F' then c as int - 'A' as int + 10
    else if 'a' <= c <= 'f' then c as int - 'a' as int + 10
    else -1
  }

  function HexChar(n: nat): char
    requires n < 16
  {
    if n < 10 then '0' + n as char else 'A' + (n - 10) as char
  }

  // ----- parsing -----

  predicate AllHex(s: string) {
    forall i :: 0 <= i < |s| ==> IsHexDigit(s[i])
  }

  /** Byte `i` of the address, taken from the pair of characters at 10 - 2i. */
  function ByteAt(s: string, i: nat): byte
    requires |s| == 12 && AllHex(s) && i < 6
  {
    HexValue(s[10 - 2 * i]) * 16 + HexValue(s[11 - 2 * i])
  }

  function Parse(s: string): Option<Address> {
    if |s| != 12 || !AllHex(s) then None
    else
      var a := seq(6, i requires 0 <= i < 6 => ByteAt(s, i));
      if BcdCodec.AllBcd(a) then Some(a) else None
  }

  method FromString(s: string) returns (r: Option<Address>)
    ensures r == Parse(s)
  {
    if |s| != 12 {
      return None;
    }
    for j := 0 to |s|
      invariant forall i :: 0 <= i < j ==> IsHexDigit(s[i])
    {
      if !IsHexDigit(s[j]) {
        return None;
      }
    }
    ghost var all := seq(6, i requires 0 <= i < 6 => ByteAt(s, i));
    var bytes: Address := [0, 0, 0, 0, 0, 0];
    for i := 0 to 6
      invariant forall j :: 0 <= j < i ==> bytes[j] == ByteAt(s, j) && BcdCodec.ValidBcd(bytes[j])
    {
      var hi := HexValue(s[10 - 2 * i]);
      var lo := HexValue(s[10 - 2 * i + 1]);
      var b: byte := hi * 16 + lo;
      assert all[i] == b;
      if !BcdCodec.ValidBcd(b) {
        return None;
      }
      bytes := bytes[i := b];
    }
    assert bytes == all;
    return Some(bytes);
  }

  // ----- printing -----

  /** Two upper-case hexadecimal characters a byte, highest byte first. */
  function Text(a: Address): (s: string)
    ensures |s| == 12
  {
    seq(12, j requires 0 <= j < 12 =>
      HexChar(if j % 2 == 0 then a[5 - j / 2] / 16 else a[5 - j / 2] % 16))
  }

  method ToString(a: Address) returns (s: string)
    ensures s == Text(a)
  {
    s := "";
    var i := 5;
    while i >= 0
      invariant -1 <= i <= 5
      invariant s == Text(a)[..2 * (5 - i)]
    {
      s := s + [HexChar(a[i] / 16), HexChar(a[i] % 16)];
      i := i - 1;
    }
  }

  method IsBroadcast(a: Address) returns (yes: bool)
    ensures yes <==> forall i :: 0 <= i < 6 ==> a[i] == 0x99
  {
    for i := 0 to 6
      invariant forall j :: 0 <= j < i ==> a[j] == 0x99
    {
      if a[i] != 0x99 {
        return false;
      }
    }
    return true;
  }

  // ----- the text is a faithful name for the address -----

  predicate TwelveDigits(s: string) {
    |s| == 12 && forall i :: 0 <= i < 12 ==> IsDecimalDigit(s[i])
  }

  /** Hexadecimal digits are looked for, but exactly the twelve-digit decimal strings get through. */
  lemma ParsesExactlyTwelveDigits(s: string)
    ensures Parse(s).Some? <==> TwelveDigits(s)
  {
    if |s| == 12 && AllHex(s) {
      var a := seq(6, i requires 0 <= i < 6 => ByteAt(s, i));
      if TwelveDigits(s) {
        forall i | 0 <= i < 6 ensures BcdCodec.ValidBcd(a[i]) {
        }
      } else {
        var k :| 0 <= k < 12 && !IsDecimalDigit(s[k]);
        assert HexValue(s[k]) >= 10;
        assert !BcdCodec.ValidBcd(a[5 - k / 2]);
      }
    }
  }

  lemma ParseThenText(s: string)
    requires Parse(s).Some?
    ensures Text(Parse(s).value) == s
  {
    ParsesExactlyTwelveDigits(s);
    var a := Parse(s).value;
    forall j | 0 <= j < 12 ensures Text(a)[j] == s[j] {
      assert a[5 - j / 2] == ByteAt(s, 5 - j / 2);
    }
  }

  /** Printing and reading back gives the address again exactly when all its bytes are BCD. */
  lemma TextThenParse(a: Address)
    ensures Parse(Text(a)) == (if BcdCodec.AllBcd(a) then Some(a) else None)
  {
    var s := Text(a);
    assert AllHex(s);
    var b := seq(6, i requires 0 <= i < 6 => ByteAt(s, i));
    forall i | 0 <= i < 6 ensures b[i] == a[i] {
      TextByte(a, i);
    }
    assert b == a;
  }

  /** The text digit by digit: the last byte comes first, and of each byte the upper half. */
  lemma TextDigits(a: Address, i: nat)
    requires i < 6
    ensures Text(a)[2 * i] == "0123456789ABCDEF"[a[5 - i] / 16]
    ensures Text(a)[2 * i + 1] == "0123456789ABCDEF"[a[5 - i] % 16]
  {
    assert 2 * i % 2 == 0 && 2 * i / 2 == i && (2 * i + 1) % 2 == 1 && (2 * i + 1) / 2 == i;
    HexCharIs(a[5 - i] / 16);
    HexCharIs(a[5 - i] % 16);
  }

  lemma HexCharIs(n: nat)
    requires n < 16
    ensures HexChar(n) == "0123456789ABCDEF"[n]
  {
  }

  lemma TextByte(a: Address, i: nat)
    requires i < 6 && AllHex(Text(a))
    ensures ByteAt(Text(a), i) == a[i]
  {
    assert (10 - 2 * i) % 2 == 0 && (10 - 2 * i) / 2 == 5 - i && (11 - 2 * i) % 2 == 1 && (11 - 2 * i) / 2 == 5 - i;
    assert Text(a)[10 - 2 * i] == HexChar(a[i] / 16);
    assert Text(a)[11 - 2 * i] == HexChar(a[i] % 16);
    HexCharValue(a[i] / 16);
    HexCharValue(a[i] % 16);
  }

  lemma HexCharValue(n: nat)
    requires n < 16
    ensures HexValue(HexChar(n)) == n
  {
  }

  lemma BroadcastIffNines(a: Address)
    ensures (forall i :: 0 <= i < 6 ==> a[i] == 0x99) <==> Text(a) == "999999999999"
  {
    if Text(a) == "999999999999" {
      forall i | 0 <= i < 6 ensures a[i] == 0x99 {
        assert Text(a)[10 - 2 * i] == HexChar(a[i] / 16) == '9';
        assert Text(a)[11 - 2 * i] == HexChar(a[i] % 16) == '9';
      }
    }
  }
}
