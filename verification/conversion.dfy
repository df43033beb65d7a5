/** The static byte, integer, bit, hex and MAC-address helpers of the
    library's Conversion class. */
module Conversion {
  import opened Bytes
  import opened Wrappers

  // ---------------------------------------------------------------------------
  // Little-endian packing

  /** Two bytes, least significant first, read back as one 16-bit value. The
      source reads only the first two bytes and traps on a shorter array. */
  function BytesToUint16(arr: seq<u8>): (r: u16)
    requires |arr| >= 2
    ensures r % 0x100 == arr[0] && r / 0x100 == arr[1]
    ensures r == LittleEndian(arr[..2])
  {
    assert arr[..2][1..] == [arr[1]];
    assert [arr[1]][1..] == [];
    assert LittleEndian([arr[1]]) == arr[1] + 0x100 * LittleEndian([]);
    (arr[1] as int) * 0x100 + arr[0]
  }

  /** A 16-bit value split into two bytes, least significant first. */
  function Uint16ToBytes(value: u16): (r: seq<u8>)
    ensures |r| == 2
    ensures BytesToUint16(r) == value
  {
    [value % 0x100, (value / 0x100) % 0x100]
  }

  /** Four bytes, least significant first, read back as one 32-bit value:
      byte k is what remains after k shifts right by eight bits, masked. */
  function BytesToUint32(arr: seq<u8>): (r: u32)
    requires |arr| >= 4
    ensures r % 0x100 == arr[0]
    ensures (r / 0x100) % 0x100 == arr[1]
    ensures (r / 0x100 / 0x100) % 0x100 == arr[2]
    ensures r / 0x100 / 0x100 / 0x100 == arr[3]
  {
    var q2 := arr[2] as int + 0x100 * (arr[3] as int);
    var q1 := arr[1] as int + 0x100 * q2;
    assert q1 / 0x100 == q2 && q1 % 0x100 == arr[1];
    assert q2 / 0x100 == arr[3] && q2 % 0x100 == arr[2];
    arr[0] as int + 0x100 * q1
  }

  /** The four bytes read as a 32-bit value are their little-endian value. */
  lemma Uint32IsLittleEndian(arr: seq<u8>)
    requires |arr| >= 4
    ensures BytesToUint32(arr) == LittleEndian(arr[..4])
  {
    assert arr[..4][1..] == arr[1..4];
    assert arr[1..4][1..] == arr[2..4];
    assert arr[2..4][1..] == [arr[3]];
    assert [arr[3]][1..] == [];
    assert LittleEndian([arr[3]]) == arr[3] + 0x100 * LittleEndian([]);
    assert LittleEndian(arr[2..4]) == arr[2] as int + 0x100 * (arr[3] as int);
    assert LittleEndian(arr[1..4]) == arr[1] as int + 0x100 * (arr[2] as int + 0x100 * (arr[3] as int));
  }

  /** A 32-bit value split into four bytes, least significant first; byte k
      is the value shifted right by 8k bits, masked to eight bits. */
  function Uint32ToBytes(value: u32): (r: seq<u8>)
    ensures |r| == 4
    ensures BytesToUint32(r) == value
  {
    var q1 := value / 0x100;
    var q2 := q1 / 0x100;
    var q3 := q2 / 0x100;
    assert value == value % 0x100 + 0x100 * (q1 % 0x100 + 0x100 * (q2 % 0x100 + 0x100 * q3));
    [value % 0x100, q1 % 0x100, q2 % 0x100, q3]
  }

  /** Decoding then re-encoding gives back the bytes that were read. */
  lemma BytesRoundTrip(arr: seq<u8>)
    requires |arr| >= 4
    ensures Uint16ToBytes(BytesToUint16(arr)) == arr[..2]
    ensures Uint32ToBytes(BytesToUint32(arr)) == arr[..4]
  {
  }

  /** The expectations of the library's unit test for these helpers. */
  lemma ConversionTestVectors()
    ensures BytesToUint16([10, 32]) == 8202
    ensures BytesToUint32([10, 32, 0, 2]) == 33562634
    ensures Uint32ToInt32(3147483647) == -1147483649
  {
  }

  // ---------------------------------------------------------------------------
  // Two's-complement reinterpretation

  /** The same 32 bits read as a signed value. */
  function Uint32ToInt32(v: u32): (r: int)
    ensures -0x8000_0000 <= r < 0x8000_0000
    ensures (v - r) % 0x1_0000_0000 == 0
  {
    if v < 0x8000_0000 then v else v - 0x1_0000_0000
  }

  /** The same 16 bits read as a signed value. Conversion.swift has no
      uint16_to_int16; the advertisement parser calls one, modelled here as the
      16-bit analogue of the 32-bit helper. */
  function Uint16ToInt16(v: u16): (r: int)
    ensures -0x8000 <= r < 0x8000
    ensures (v - r) % 0x1_0000 == 0
  {
    if v < 0x8000 then v else v - 0x1_0000
  }

  /** The same 8 bits read as a signed value. */
  function Uint8ToInt8(v: u8): (r: int)
    ensures -0x80 <= r < 0x80
    ensures (v - r) % 0x100 == 0
    ensures v < 0x80 ==> r == v
    ensures v >= 0x80 ==> r == v - 0x100
  {
    if v < 0x80 then v else v - 0x100
  }

  /** The signed reinterpretation is the only value in range congruent to v. */
  lemma {:induction false} Int32Unique(v: u32, x: int)
    requires -0x8000_0000 <= x < 0x8000_0000
    requires (v - x) % 0x1_0000_0000 == 0
    ensures x == Uint32ToInt32(v)
  {
    var d := v - x;
    assert -0x8000_0000 < d < 0x1_8000_0000;
    assert d == 0 || d == 0x1_0000_0000;
  }

  // ---------------------------------------------------------------------------
  // Bit arrays

  /** The digits of String(v, radix: 2) with '1' read as true: most significant
      digit first, no leading zeros, and the single digit "0" for zero. */
  function BinaryDigits(v: nat): (r: seq<bool>)
    ensures 1 <= |r|
    ensures v < Pow2(|r|)
    ensures v >= 2 ==> Pow2(|r| - 1) <= v
    ensures forall k :: 0 <= k < |r| ==> r[|r| - 1 - k] == Bit(v, k)
    decreases v
  {
    if v < 2 then [v == 1] else BinaryDigits(v / 2) + [v % 2 == 1]
  }

  lemma {:induction false} HighBitsClear(v: nat, n: nat, k: nat)
    requires v < Pow2(n) && n <= k
    ensures !Bit(v, k)
    decreases k
  {
    if k > 0 {
      if n > 0 {
        HighBitsClear(v / 2, n - 1, k - 1);
      } else {
        assert v == 0;
        HighBitsClear(0, 0, k - 1);
      }
    }
  }

  lemma {:induction false} Pow2Monotone(a: nat, b: nat)
    requires a <= b
    ensures Pow2(a) <= Pow2(b)
    decreases b
  {
    if a < b {
      Pow2Monotone(a, b - 1);
    }
  }

  /** The eight flags of a byte, most significant bit first: index i holds bit
      7 - i. The binary string is copied in behind a run of false padding. */
  function Uint8ToBitArray(val: u8): (r: seq<bool>)
    ensures |r| == 8
    ensures forall i :: 0 <= i < 8 ==> r[i] == Bit(val, 7 - i)
  {
    var digits := BinaryDigits(val);
    assert |digits| <= 8 by {
      if |digits| > 8 {
        Pow2Monotone(8, |digits| - 1);
      }
    }
    var padding := 8 - |digits|;
    var r := seq(padding, _ => false) + digits;
    forall i | 0 <= i < 8
      ensures r[i] == Bit(val, 7 - i)
    {
      if i < padding {
        HighBitsClear(val, |digits|, 7 - i);
      } else {
        assert r[i] == digits[|digits| - 1 - (7 - i)];
      }
    }
    r
  }

  /** The number whose binary digits, most significant first, are `bits`. */
  function BitsToNat(bits: seq<bool>): (v: nat)
    ensures v < Pow2(|bits|)
    ensures forall k :: 0 <= k < |bits| ==> Bit(v, k) == bits[|bits| - 1 - k]
    decreases |bits|
  {
    if |bits| == 0 then 0
    else
      var front := bits[..|bits| - 1];
      var high := BitsToNat(front);
      var v := 2 * high + (if bits[|bits| - 1] then 1 else 0);
      assert v / 2 == high;
      assert forall k :: 0 <= k < |front| ==> front[k] == bits[k];
      v
  }

  /** The byte of eight flags, most significant first: the inverse of the bit
      array conversion. */
  function BitArrayToUint8(bits: seq<bool>): (b: u8)
    requires |bits| == 8
    ensures Uint8ToBitArray(b) == bits
  {
    Pow2Byte();
    var b := BitsToNat(bits);
    assert forall i :: 0 <= i < 8 ==> Uint8ToBitArray(b)[i] == bits[i];
    b
  }

  // ---------------------------------------------------------------------------
  // Hexadecimal text

  /** Upper-case hexadecimal digit of a nibble. */
  function HexDigit(n: nat): (c: char)
    requires n < 16
  {
    "0123456789ABCDEF"[n]
  }

  predicate IsHexChar(c: char) {
    ('0' <= c <= '9') || ('a' <= c <= 'f') || ('A' <= c <= 'F')
  }

  /** Value of a hexadecimal digit in either case. */
  function HexValue(c: char): (n: nat)
    requires IsHexChar(c)
    ensures n < 16
  {
    if '0' <= c <= '9' then c as int - '0' as int
    else if 'a' <= c <= 'f' then c as int - 'a' as int + 10
    else c as int - 'A' as int + 10
  }

  lemma HexDigitValue(n: nat)
    requires n < 16
    ensures IsHexChar(HexDigit(n)) && HexValue(HexDigit(n)) == n
  {
  }

  /** uint8_to_hex_string AS WRITTEN: String(format: "%2X") pads to width two
      with a space, so a byte below 16 renders as a space and one digit; the
      length-one check that would prepend "0" can never fire. */
  function Uint8ToHexStringAsWritten(b: u8): (r: string)
    ensures |r| == 2
    ensures r[1] == HexDigit(b % 16)
    ensures b < 16 <==> r[0] == ' '
    ensures b >= 16 ==> r[0] == HexDigit(b / 16)
  {
    var hex := if b < 16 then [' ', HexDigit(b)] else [HexDigit(b / 16), HexDigit(b % 16)];
    if |hex| == 1 then "0" + hex else hex
  }

  /** The high character "%2X" prints for a byte: its high hex digit, or the
      padding space for a byte below 16. */
  function PaddedHighDigit(b: u8): char {
    if b < 16 then ' ' else HexDigit(b / 16)
  }

  /** The as-written formatter renders 10 as " A", not "0A". */
  lemma HexPaddingCounterexample()
    ensures Uint8ToHexStringAsWritten(10) == " A"
    ensures Uint8ToHexString(10) == "0A"
  {
  }

  /** uint8_to_hex_string as evidently intended: two upper-case digits,
      zero-padded, which two-digit hex parsing reads back. */
  function Uint8ToHexString(b: u8): (r: string)
    ensures |r| == 2
    ensures IsHexChar(r[0]) && IsHexChar(r[1])
    ensures HexValue(r[0]) * 16 + HexValue(r[1]) == b
  {
    HexDigitValue(b / 16);
    HexDigitValue(b % 16);
    [HexDigit(b / 16), HexDigit(b % 16)]
  }

  /** Hex text of a byte array: two digits per byte, in order. */
  function Uint8ArrayToHexString(data: seq<u8>): (r: string)
    ensures |r| == 2 * |data|
    ensures forall i :: 0 <= i < |data| ==>
              r[2 * i] == Uint8ToHexString(data[i])[0] && r[2 * i + 1] == Uint8ToHexString(data[i])[1]
    ensures forall j :: 0 <= j < |r| ==> IsHexChar(r[j])
  {
    if |data| == 0 then ""
    else
      var head, rest := Uint8ToHexString(data[0]), Uint8ArrayToHexString(data[1..]);
      HexStringStep(data, head, rest);
      head + rest
  }

  /** One step of Uint8ArrayToHexString: the head byte's two digits in front
      of the rest's digits keep every byte's pair at its place. */
  lemma HexStringStep(data: seq<u8>, head: string, rest: string)
    requires |data| > 0 && head == Uint8ToHexString(data[0])
    requires |rest| == 2 * (|data| - 1)
    requires forall i :: 0 <= i < |data| - 1 ==>
               rest[2 * i] == Uint8ToHexString(data[1..][i])[0] && rest[2 * i + 1] == Uint8ToHexString(data[1..][i])[1]
    requires forall j :: 0 <= j < |rest| ==> IsHexChar(rest[j])
    ensures forall i :: 0 <= i < |data| ==>
              (head + rest)[2 * i] == Uint8ToHexString(data[i])[0] && (head + rest)[2 * i + 1] == Uint8ToHexString(data[i])[1]
    ensures forall j :: 0 <= j < |head + rest| ==> IsHexChar((head + rest)[j])
  {
    var r := head + rest;
    forall i | 0 <= i < |data|
      ensures r[2 * i] == Uint8ToHexString(data[i])[0] && r[2 * i + 1] == Uint8ToHexString(data[i])[1]
    {
      if i > 0 {
        assert data[i] == data[1..][i - 1];
        assert r[2 * i] == rest[2 * (i - 1)] && r[2 * i + 1] == rest[2 * (i - 1) + 1];
      }
    }
    forall j | 0 <= j < |r|
      ensures IsHexChar(r[j])
    {
      if j >= 2 {
        assert r[j] == rest[j - 2];
      }
    }
  }

  /** UInt8(pair, radix: 16) on a two-character text: two hex digits; a '+'
      sign and one digit; or "-0", the only negative-signed text whose value
      fits an unsigned byte. Anything else is nil. */
  function PairValue(hi: char, lo: char): (v: Option<u8>)
    ensures v.Some? <==> IsHexChar(lo) && (IsHexChar(hi) || hi == '+' || (hi == '-' && lo == '0'))
    ensures IsHexChar(hi) && IsHexChar(lo) ==> v == Some(HexValue(hi) * 16 + HexValue(lo))
    ensures hi == '+' && IsHexChar(lo) ==> v == Some(HexValue(lo))
    ensures hi == '-' && v.Some? ==> v == Some(0)
  {
    if !IsHexChar(lo) then None
    else if IsHexChar(hi) then Some(HexValue(hi) * 16 + HexValue(lo))
    else if hi == '+' then Some(HexValue(lo))
    else if hi == '-' && lo == '0' then Some(0)
    else None
  }

  /** Hex text to bytes, two characters at a time. A trailing odd character is
      never parsed and is dropped; a pair UInt8(_, radix: 16) rejects makes
      the force unwrap trap. */
  function HexStringToUint8Array(input: string): (r: Outcome<seq<u8>>)
    ensures r.Done? <==> forall k :: 0 <= k < |input| / 2 ==> PairValue(input[2 * k], input[2 * k + 1]).Some?
    ensures r.Done? ==> |r.value| == |input| / 2
    ensures r.Done? ==> forall k :: 0 <= k < |r.value| ==> PairValue(input[2 * k], input[2 * k + 1]) == Some(r.value[k])
  {
    if |input| < 2 then Done([])
    else
      match PairValue(input[0], input[1])
      case None =>
        assert PairValue(input[2 * 0], input[2 * 0 + 1]).None?;
        Trapped
      case Some(b) =>
        var tail := input[2..];
        TailPairs(input);
        match HexStringToUint8Array(tail)
        case Trapped =>
          var k :| 0 <= k < |tail| / 2 && PairValue(tail[2 * k], tail[2 * k + 1]).None?;
          assert PairValue(input[2 * (k + 1)], input[2 * (k + 1) + 1]).None?;
          Trapped
        case Done(rest) =>
          var r := [b] + rest;
          forall k | 0 <= k < |input| / 2
            ensures PairValue(input[2 * k], input[2 * k + 1]) == Some(r[k])
          {
            if k > 0 {
              assert PairValue(tail[2 * (k - 1)], tail[2 * (k - 1) + 1]) == Some(rest[k - 1]);
            }
          }
          Done(r)
  }

  /** Pair k + 1 of a text is pair k of the text after its first two characters. */
  lemma TailPairs(input: string)
    requires |input| >= 2
    ensures forall k :: 0 <= k < |input[2..]| / 2 ==>
              input[2..][2 * k] == input[2 * (k + 1)] && input[2..][2 * k + 1] == input[2 * (k + 1) + 1]
  {
  }

  /** Text made of hexadecimal digits parses pair by pair into their values. */
  lemma HexDigitsParse(input: string)
    requires forall i :: 0 <= i < |input| ==> IsHexChar(input[i])
    ensures HexStringToUint8Array(input).Done?
    ensures forall k :: 0 <= k < |input| / 2 ==>
              HexStringToUint8Array(input).value[k] == HexValue(input[2 * k]) * 16 + HexValue(input[2 * k + 1])
  {
    assert forall k :: 0 <= k < |input| / 2 ==> IsHexChar(input[2 * k]) && IsHexChar(input[2 * k + 1]);
  }

  /** The sign a pair may carry: "+A" is 10, "-0" is 0 and "-1" traps. */
  lemma SignedPairs()
    ensures HexStringToUint8Array("+A") == Done([10])
    ensures HexStringToUint8Array("-0") == Done([0])
    ensures HexStringToUint8Array("-1") == Trapped
  {
    var plus, zero, one := "+A", "-0", "-1";
    assert plus[0] == '+' && plus[1] == 'A';
    assert zero[0] == '-' && zero[1] == '0';
    assert one[0] == '-' && one[1] == '1';
    assert PairValue(plus[0], plus[1]) == Some(10);
    assert PairValue(zero[0], zero[1]) == Some(0);
    var p, z := HexStringToUint8Array(plus), HexStringToUint8Array(zero);
    assert PairValue(plus[2 * 0], plus[2 * 0 + 1]) == Some(p.value[0]);
    assert PairValue(zero[2 * 0], zero[2 * 0 + 1]) == Some(z.value[0]);
    assert p.value == [10] && z.value == [0];
  }

  /** Hex-encoding then parsing gives the bytes back. */
  lemma {:induction false} HexRoundTrip(data: seq<u8>)
    ensures HexStringToUint8Array(Uint8ArrayToHexString(data)) == Done(data)
  {
    var s := Uint8ArrayToHexString(data);
    assert |s| / 2 * 2 == |s|;
    var r := HexStringToUint8Array(s);
    assert r.Done?;
    assert |r.value| == |data|;
    forall k | 0 <= k < |data|
      ensures r.value[k] == data[k]
    {
      assert s[2 * k] == Uint8ToHexString(data[k])[0];
      assert s[2 * k + 1] == Uint8ToHexString(data[k])[1];
    }
    assert r.value == data;
  }

  // ---------------------------------------------------------------------------
  // Strings, byte order and MAC addresses

  /** Each character's Unicode scalar value as a byte; UInt8(_) traps on a
      scalar above 255. Each character is taken to be a single scalar. */
  function StringToUint8Array(s: string): (r: Outcome<seq<u8>>)
    ensures r.Done? <==> forall i :: 0 <= i < |s| ==> s[i] as int < 0x100
    ensures r.Done? ==> |r.value| == |s| && forall i :: 0 <= i < |s| ==> r.value[i] == s[i] as int
  {
    if forall i :: 0 <= i < |s| ==> s[i] as int < 0x100 then
      Done(seq(|s|, i requires 0 <= i < |s| => s[i] as int))
    else
      Trapped
  }

  /** The text whose characters have the given byte values as their scalars. */
  function BytesToString(bytes: seq<u8>): (s: string)
    ensures |s| == |bytes| && forall i :: 0 <= i < |bytes| ==> s[i] as int == bytes[i]
  {
    seq(|bytes|, i requires 0 <= i < |bytes| => bytes[i] as char)
  }

  /** The byte conversion of text is undone by reading the bytes back as
      characters, and it never traps on text made from bytes. */
  lemma StringBytesRoundTrip(bytes: seq<u8>, s: string)
    ensures StringToUint8Array(BytesToString(bytes)) == Done(bytes)
    ensures StringToUint8Array(s).Done? ==> BytesToString(StringToUint8Array(s).value) == s
  {
    var r := StringToUint8Array(BytesToString(bytes));
    assert r.value == bytes;
    if StringToUint8Array(s).Done? {
      var t := BytesToString(StringToUint8Array(s).value);
      assert forall i :: 0 <= i < |s| ==> t[i] == s[i];
    }
  }

  function Reverse<T>(s: seq<T>): (r: seq<T>)
    ensures |r| == |s|
    ensures forall i :: 0 <= i < |s| ==> r[i] == s[|s| - 1 - i]
  {
    if |s| == 0 then [] else Reverse(s[1..]) + [s[0]]
  }

  lemma ReverseInvolution<T>(s: seq<T>)
    ensures Reverse(Reverse(s)) == s
  {
  }

  /** The first i groups of the MAC text: the hex of the last i bytes through
      the as-written formatter, last byte first, separated by colons. */
  function MacPrefix(input: seq<u8>, i: nat): (r: string)
    requires 1 <= i <= |input|
    ensures |r| == 3 * i - 1
  {
    var hex := Uint8ToHexStringAsWritten(input[|input| - i]);
    if i == 1 then hex else MacPrefix(input, i - 1) + ":" + hex
  }

  /** Every group holds the two characters the formatter gives its byte (a
      space for the high digit of a byte below 16), and colons sit between
      the groups. */
  lemma {:induction false} MacPrefixShape(input: seq<u8>, i: nat)
    requires 1 <= i <= |input|
    ensures forall k :: 0 <= k < i ==>
              && MacPrefix(input, i)[3 * k] == PaddedHighDigit(input[|input| - 1 - k])
              && MacPrefix(input, i)[3 * k + 1] == HexDigit(input[|input| - 1 - k] % 16)
    ensures forall k :: 0 <= k < i - 1 ==> MacPrefix(input, i)[3 * k + 2] == ':'
  {
    if i > 1 {
      MacPrefixShape(input, i - 1);
      var b := input[|input| - i];
      var before := MacPrefix(input, i - 1);
      var hex := Uint8ToHexStringAsWritten(b);
      var s := MacPrefix(input, i);
      assert s == before + ":" + hex;
      assert hex[0] == PaddedHighDigit(b) && hex[1] == HexDigit(b % 16);
      assert s[|before|] == ':' && s[|before| + 1] == hex[0] && s[|before| + 2] == hex[1];
      forall j | 0 <= j < |before|
        ensures s[j] == before[j]
      {
      }
    }
  }

  /** Colon-separated hex of the bytes in reverse order ("F3:D4:A1:CC:FF:32"),
      each byte through the as-written formatter, so a byte below 16 shows as
      a space and one digit. An empty input forms the range 0...-1 and traps. */
  function Uint8ArrayToMacAddress(input: seq<u8>): (r: Outcome<string>)
    ensures r.Trapped? <==> |input| == 0
    ensures r.Done? ==> |r.value| == 3 * |input| - 1
    ensures r.Done? ==> forall k :: 0 <= k < |input| ==>
              && r.value[3 * k] == PaddedHighDigit(input[|input| - 1 - k])
              && r.value[3 * k + 1] == HexDigit(input[|input| - 1 - k] % 16)
    ensures r.Done? ==> forall k :: 0 <= k < |input| - 1 ==> r.value[3 * k + 2] == ':'
  {
    if |input| == 0 then Trapped
    else
      MacPrefixShape(input, |input|);
      Done(MacPrefix(input, |input|))
  }

  /** The text form NSUUID accepts: 8-4-4-4-12 hexadecimal digits. */
  predicate IsUuidString(s: string) {
    |s| == 36 &&
    forall i :: 0 <= i < 36 ==>
      if i == 8 || i == 13 || i == 18 || i == 23 then s[i] == '-' else IsHexChar(s[i])
  }

  /** Where the i-th of the 32 digits of a UUID sits in its text. */
  function UuidDigitPosition(i: nat): (p: nat)
    requires i < 32
    ensures p < 36 && p != 8 && p != 13 && p != 18 && p != 23
  {
    if i < 8 then i else if i < 12 then i + 1 else if i < 16 then i + 2 else if i < 20 then i + 3 else i + 4
  }

  /** The 32 digits of a UUID text, its four dashes left out. */
  function UuidDigits(s: string): (d: string)
    requires |s| == 36
    ensures |d| == 32 && forall i :: 0 <= i < 32 ==> d[i] == s[UuidDigitPosition(i)]
  {
    s[..8] + (s[9..13] + (s[14..18] + (s[19..23] + s[24..])))
  }

  /** ibeaconUUIDString_to_uint8_array: a string that is not a UUID yields no
      bytes; a UUID gives its sixteen bytes, read two digits at a time. Every
      digit of a UUID is hexadecimal, so the hex parsing cannot trap here. */
  function IbeaconUuidStringToUint8Array(input: string): (r: seq<u8>)
    ensures !IsUuidString(input) ==> r == []
    ensures IsUuidString(input) ==>
              var d := UuidDigits(input);
              && |r| == 16
              && forall k :: 0 <= k < 16 ==> r[k] == HexValue(d[2 * k]) * 16 + HexValue(d[2 * k + 1])
  {
    if IsUuidString(input) then
      StripUuid(input);
      HexStringToUint8Array(StripSeparators(input)).value
    else []
  }

  /** ibeaconUUIDString_to_reversed_uint8_array: the same bytes, last first. */
  function IbeaconUuidStringToReversedUint8Array(input: string): (r: seq<u8>)
    ensures Reverse(r) == IbeaconUuidStringToUint8Array(input)
    ensures |r| == (if IsUuidString(input) then 16 else 0)
  {
    var forward := IbeaconUuidStringToUint8Array(input);
    ReverseInvolution(forward);
    Reverse(forward)
  }

  /** Removing the separators of a UUID text leaves exactly its digits. */
  lemma StripUuid(s: string)
    requires IsUuidString(s)
    ensures StripSeparators(s) == UuidDigits(s)
    ensures forall i :: 0 <= i < 32 ==> IsHexChar(UuidDigits(s)[i])
  {
    assert s[0..] == s;
    StripSegment(s, 0, 8);
    StripSegment(s, 9, 13);
    StripSegment(s, 14, 18);
    StripSegment(s, 19, 23);
    StripSeparatorsClean(s[24..]);
    forall i | 0 <= i < 32
      ensures IsHexChar(UuidDigits(s)[i])
    {
      var p := UuidDigitPosition(i);
      assert IsHexChar(s[p]);
    }
  }

  /** A run of digits ended by a dash: the run stays, the dash goes. */
  lemma StripSegment(s: string, i: nat, j: nat)
    requires i <= j < |s| && s[j] == '-'
    requires forall k :: i <= k < j ==> s[k] != '-' && s[k] != ':'
    ensures StripSeparators(s[i..]) == s[i..j] + StripSeparators(s[j + 1..])
  {
    var run, dash, rest := s[i..j], [s[j]], s[j + 1..];
    assert s[i..] == run + (dash + rest);
    assert StripSeparators(dash + rest) == StripSeparators(rest) by {
      StripSeparatorsAppend(dash, rest);
      assert dash[..0] == "";
    }
    assert StripSeparators(run + (dash + rest)) == run + StripSeparators(dash + rest) by {
      StripSeparatorsAppend(run, dash + rest);
      StripSeparatorsClean(run);
    }
  }

  /** The input without its '-' and ':' characters, the others in order. */
  function StripSeparators(s: string): (r: string)
    ensures |r| <= |s|
    ensures forall i :: 0 <= i < |r| ==> r[i] != '-' && r[i] != ':'
    ensures s == [] ==> r == []
    ensures |s| == 1 ==> r == (if s[0] == '-' || s[0] == ':' then "" else s)
  {
    if |s| == 0 then ""
    else
      var last := s[|s| - 1];
      StripSeparators(s[..|s| - 1]) + (if last == '-' || last == ':' then "" else [last])
  }

  /** Stripping works piece by piece. */
  lemma {:induction false} StripSeparatorsAppend(a: string, b: string)
    ensures StripSeparators(a + b) == StripSeparators(a) + StripSeparators(b)
    decreases |b|
  {
    if |b| > 0 {
      var b' := b[..|b| - 1];
      var last := b[|b| - 1];
      var kept: string := if last == '-' || last == ':' then "" else [last];
      StripSeparatorsAppend(a, b');
      assert (a + b)[..|a + b| - 1] == a + b';
      assert (a + b)[|a + b| - 1] == last;
      calc {
        StripSeparators(a + b);
        StripSeparators(a + b') + kept;
        (StripSeparators(a) + StripSeparators(b')) + kept;
        StripSeparators(a) + (StripSeparators(b') + kept);
        StripSeparators(a) + StripSeparators(b);
      }
    } else {
      assert a + b == a;
    }
  }

  /** Text without separators is left as it is. */
  lemma {:induction false} StripSeparatorsClean(s: string)
    requires forall i :: 0 <= i < |s| ==> s[i] != '-' && s[i] != ':'
    ensures StripSeparators(s) == s
  {
    if |s| > 0 {
      StripSeparatorsClean(s[..|s| - 1]);
      assert s == s[..|s| - 1] + [s[|s| - 1]];
    }
  }
}
