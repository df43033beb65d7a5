/** The opcode-3/type-0 advertisement layout (parseOpcode3_type0): fixed byte
    offsets into a 17-byte payload. Floating-point fields are modelled with
    Dafny reals; no claim is made about IEEE rounding. */
module Opcode3Type0 {
  import opened Bytes
  import opened LegacyPacket
  import Conversion

  /** The power factor of a signed raw byte: raw / 127, pushed out of the open
      interval (-0.01, 0.01) so that it can divide. */
  function PowerFactor(raw: int): (pf: real)
    requires -128 <= raw < 128
    ensures pf >= 0.01 || pf <= -0.01
    ensures raw == 0 || raw == 1 ==> pf == 0.01
    ensures raw == -1 ==> pf == -0.01
    ensures raw >= 2 || raw <= -2 ==> pf == raw as real / 127.0
  {
    var pf := raw as real / 127.0;
    if pf >= 0.0 && pf < 0.01 then 0.01
    else if pf < 0.0 && pf > -0.01 then -0.01
    else pf
  }

  /** parseOpcode3_type0. Anything but a 17-byte payload changes nothing. Bytes
      13-14 give the partial timestamp, which is also the unique identifier;
      with liteParse that is all. Otherwise byte 2 is the Crownstone id, byte 3
      the switch state, byte 4 the flags (bit-array indices 0-5), byte 5 the
      signed temperature, byte 6 the signed power factor, bytes 7-8 the signed
      real power in eighths, bytes 9-12 the signed energy and byte 16 the
      validation marker. */
  function Parse(f: Fields, data: seq<u8>, liteParse: bool, reconstructedTimestamp: real): (r: Fields)
    ensures |data| != 17 ==> r == f
    ensures |data| == 17 ==>
              && r.partialTimestamp == Conversion.BytesToUint16(data[13..15])
              && r.uniqueIdentifier == r.partialTimestamp
    ensures |data| == 17 && liteParse ==>
              r == f.(partialTimestamp := r.partialTimestamp, uniqueIdentifier := r.uniqueIdentifier)
    ensures |data| == 17 && !liteParse ==>
              r == Decode(f.(partialTimestamp := r.partialTimestamp, uniqueIdentifier := r.uniqueIdentifier),
                          data, reconstructedTimestamp)
  {
    if |data| != 17 then f
    else
      var partialTimestamp := Conversion.BytesToUint16(data[13..15]);
      var stamped := f.(partialTimestamp := partialTimestamp, uniqueIdentifier := partialTimestamp);
      if liteParse then stamped
      else Decode(stamped, data, reconstructedTimestamp)
  }

  /** The full (not lite) part of parseOpcode3_type0, applied after the
      partial timestamp has been stored. */
  function Decode(f: Fields, data: seq<u8>, reconstructedTimestamp: real): (r: Fields)
    requires |data| == 17
    ensures r.crownstoneId == data[2] && r.switchState == data[3] && r.flagsBitmask == data[4]
    ensures !r.stateOfExternalCrownstone
    ensures r.dimmingAvailable == Bit(data[4], 7) && r.dimmingAllowed == Bit(data[4], 6)
    ensures r.hasError == Bit(data[4], 5) && r.switchLocked == Bit(data[4], 4)
    ensures r.timeIsSet == Bit(data[4], 3) && r.switchCraftEnabled == Bit(data[4], 2)
    ensures r.temperature == Conversion.Uint8ToInt8(data[5])
    ensures r.powerFactor == PowerFactor(Conversion.Uint8ToInt8(data[6]))
    ensures r.powerUsageReal == Conversion.Uint16ToInt16(Conversion.BytesToUint16(data[7..9])) as real / 8.0
    ensures r.powerUsageApparent == r.powerUsageReal / r.powerFactor
    ensures r.accumulatedEnergy == Conversion.Uint32ToInt32(Conversion.BytesToUint32(data[9..13]))
    ensures r.timestamp == (if r.timeIsSet then reconstructedTimestamp else f.partialTimestamp as real)
    ensures r.validation == data[16]
    ensures r.opCode == f.opCode && r.dataType == f.dataType && r.setupMode == f.setupMode
    ensures r.partialTimestamp == f.partialTimestamp && r.uniqueIdentifier == f.uniqueIdentifier
  {
    var bitmaskArray := Conversion.Uint8ToBitArray(data[4]);
    var powerFactor := PowerFactor(Conversion.Uint8ToInt8(data[6]));
    var powerUsageReal := Conversion.Uint16ToInt16(Conversion.BytesToUint16(data[7..9])) as real / 8.0;
    var timeIsSet := bitmaskArray[4];
    f.(
      stateOfExternalCrownstone := false,
      crownstoneId := data[2],
      switchState := data[3],
      flagsBitmask := data[4],
      dimmingAvailable := bitmaskArray[0],
      dimmingAllowed := bitmaskArray[1],
      hasError := bitmaskArray[2],
      switchLocked := bitmaskArray[3],
      timeIsSet := timeIsSet,
      switchCraftEnabled := bitmaskArray[5],
      temperature := Conversion.Uint8ToInt8(data[5]),
      powerFactor := powerFactor,
      powerUsageReal := powerUsageReal,
      powerUsageApparent := powerUsageReal / powerFactor,
      accumulatedEnergy := Conversion.Uint32ToInt32(Conversion.BytesToUint32(data[9..13])),
      timestamp := if timeIsSet then reconstructedTimestamp else f.partialTimestamp as real,
      validation := data[16])
  }

  /** An example frame: flags 0b00010011 and a temperature byte 0xF4 give
      Crownstone 5, switch state 1 and -12 degrees. The flags are read from
      the bit array, whose index 0 is bit 7, so dimming is not available and
      the switch is locked. */
  lemma ExampleFrame(f: Fields, rest: seq<u8>, t: real)
    requires |rest| == 11
    ensures var r := Parse(f, [0x03, 0x00, 0x05, 0x01, 0x13, 0xF4] + rest, false, t);
            && r.crownstoneId == 5 && r.switchState == 1 && r.temperature == -12
            && !r.dimmingAvailable && !r.dimmingAllowed && !r.hasError && r.switchLocked
  {
    assert Bit(0x13, 4) && !Bit(0x13, 7) && !Bit(0x13, 6) && !Bit(0x13, 5);
  }

  // ---------------------------------------------------------------------------
  // The frame a Crownstone sends

  /** The quantities a type-0 frame carries, before encoding: the six flags
      and the two unused ones as the bit array, the signed readings as
      integers (real power in eighths of a watt). */
  datatype Reading = Reading(
    crownstoneId: u8,
    switchState: u8,
    flags: seq<bool>,
    temperature: int,
    powerFactorRaw: int,
    powerInEighths: int,
    energy: int,
    partialTimestamp: u16,
    validation: u8)

  predicate ValidReading(x: Reading) {
    && |x.flags| == 8
    && -0x80 <= x.temperature < 0x80
    && -0x80 <= x.powerFactorRaw < 0x80
    && -0x8000 <= x.powerInEighths < 0x8000
    && -0x8000_0000 <= x.energy < 0x8000_0000
  }

  /** The unsigned representative of a signed value modulo `modulus`: its
      two's-complement bit pattern. */
  function TwosComplement(v: int, modulus: nat): (u: nat)
    requires -(modulus / 2) <= v < modulus / 2
    ensures u < modulus && (u - v) % modulus == 0
  {
    if v < 0 then v + modulus else v
  }

  /** The 17 bytes of a type-0 frame: two header bytes, the fields at the
      offsets the parser reads, and one byte the parser skips. */
  function Encode(header: u8, dataType: u8, x: Reading, unused: u8): (r: seq<u8>)
    requires ValidReading(x)
    ensures |r| == 17
  {
    [header, dataType, x.crownstoneId, x.switchState, Conversion.BitArrayToUint8(x.flags),
     TwosComplement(x.temperature, 0x100), TwosComplement(x.powerFactorRaw, 0x100)]
      + Conversion.Uint16ToBytes(TwosComplement(x.powerInEighths, 0x1_0000))
      + Conversion.Uint32ToBytes(TwosComplement(x.energy, 0x1_0000_0000))
      + Conversion.Uint16ToBytes(x.partialTimestamp)
      + [unused, x.validation]
  }

  /** Where the multi-byte fields of an encoded frame sit. */
  lemma EncodedOffsets(header: u8, dataType: u8, x: Reading, unused: u8)
    requires ValidReading(x)
    ensures var data := Encode(header, dataType, x, unused);
            && data[2] == x.crownstoneId && data[3] == x.switchState
            && data[4] == Conversion.BitArrayToUint8(x.flags)
            && data[5] == TwosComplement(x.temperature, 0x100)
            && data[6] == TwosComplement(x.powerFactorRaw, 0x100)
            && data[7..9] == Conversion.Uint16ToBytes(TwosComplement(x.powerInEighths, 0x1_0000))
            && data[9..13] == Conversion.Uint32ToBytes(TwosComplement(x.energy, 0x1_0000_0000))
            && data[13..15] == Conversion.Uint16ToBytes(x.partialTimestamp)
            && data[16] == x.validation
  {
  }

  /** Parsing an encoded frame gives back every reading it carries: the id,
      the switch state, the six flags by bit-array index, the signed
      temperature, power factor, real power and energy, the partial
      timestamp and the validation marker. */
  lemma ParseEncoded(f: Fields, header: u8, dataType: u8, x: Reading, unused: u8, t: real)
    requires ValidReading(x)
    ensures var r := Parse(f, Encode(header, dataType, x, unused), false, t);
            && r.crownstoneId == x.crownstoneId && r.switchState == x.switchState
            && r.dimmingAvailable == x.flags[0] && r.dimmingAllowed == x.flags[1]
            && r.hasError == x.flags[2] && r.switchLocked == x.flags[3]
            && r.timeIsSet == x.flags[4] && r.switchCraftEnabled == x.flags[5]
            && r.temperature == x.temperature
            && r.powerFactor == PowerFactor(x.powerFactorRaw)
            && r.powerUsageReal == x.powerInEighths as real / 8.0
            && r.accumulatedEnergy == x.energy
            && r.partialTimestamp == x.partialTimestamp && r.uniqueIdentifier == x.partialTimestamp
            && r.validation == x.validation
  {
    var data := Encode(header, dataType, x, unused);
    EncodedOffsets(header, dataType, x, unused);
    var flags := Conversion.Uint8ToBitArray(data[4]);
    assert flags == x.flags;
    assert forall i :: 0 <= i < 8 ==> flags[i] == Bit(data[4], 7 - i);
  }
}
