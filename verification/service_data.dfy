/** The current revision of the advertisement service-data packet
    (ScanResponsePacket in Sources/): frame-length validation, operation-mode
    classification, device-type selection, opcode dispatch and the
    decrypt-then-parse integration point.

    The per-opcode field parsers and the decryption routine are not part of
    this model. A parse records which opcode parser was called and on which
    bytes (parsedWith); decryption is supplied as its result. */
module ServiceData {
  import opened Bytes
  import opened Wrappers
  import opened AdvertisedUuids
  import Conversion

  datatype CrownstoneMode = ModeOperation | ModeSetup | ModeDfu | ModeUnknown

  /** DeviceType. FromRaw(x) is the case whose raw value is x; the enum's raw
      values are not part of this model and are given as knownTypes. */
  datatype DeviceType = Unset | Undefined | Plug | Builtin | Guidestone | FromRaw(raw: u8)

  /** A call of the opcode parser for `opCode` on `input`. */
  datatype ParserCall = ParserCall(opCode: nat, input: seq<u8>)

  datatype Packet = Packet(
    data: seq<u8>,
    serviceUuid: Option<ServiceUuid>,
    opCode: u8,
    encryptedDataStartIndex: nat,
    validData: bool,
    dataReadyForUse: bool,
    deviceType: DeviceType,
    parsedWith: Option<ParserCall>)

  /** What the constructor establishes and no later step changes: a valid frame
      is 17 or 18 bytes, its opcode is byte 0, and the encrypted part starts
      right after the public header. */
  predicate WellFormed(p: Packet) {
    p.validData ==>
      && ((|p.data| == 18 && p.encryptedDataStartIndex == 2) || (|p.data| == 17 && p.encryptedDataStartIndex == 1))
      && p.opCode == p.data[0]
  }

  /** ScanResponsePacket.init: only 17- and 18-byte frames are valid. */
  function Init(data: seq<u8>, serviceUuid: Option<ServiceUuid>): (p: Packet)
    ensures WellFormed(p)
    ensures p.validData <==> |data| == 17 || |data| == 18
    ensures |data| == 18 ==> p.encryptedDataStartIndex == 2
    ensures |data| != 18 ==> p.encryptedDataStartIndex == 1
    ensures p.opCode == if p.validData then data[0] else 0
    ensures p.data == data && p.serviceUuid == serviceUuid
    ensures !p.dataReadyForUse && p.deviceType == Unset && p.parsedWith == None
  {
    var initial := Packet(data, serviceUuid, 0, 1, true, false, Unset, None);
    if |data| == 18 then initial.(opCode := data[0], encryptedDataStartIndex := 2)
    else if |data| == 17 then initial.(opCode := data[0], encryptedDataStartIndex := 1)
    else initial.(validData := false)
  }

  /** getOperationMode. Opcode 1 is the deprecated layout: setup iff the top
      flag of byte 4 (bit-array index 7) is set and bytes 1-2 read as zero. */
  function GetOperationMode(p: Packet): (m: CrownstoneMode)
    requires WellFormed(p)
    ensures !p.validData ==> m == ModeUnknown
    ensures p.validData && p.opCode in {2, 3, 5, 7} ==> m == ModeOperation
    ensures p.validData && p.opCode in {4, 6} ==> m == ModeSetup
    ensures p.validData && p.opCode == 1 ==>
              (m == ModeSetup <==> Bit(p.data[4], 0) && p.data[1] == 0 && p.data[2] == 0)
    ensures p.validData && p.opCode == 1 ==> m in {ModeSetup, ModeOperation}
    ensures p.validData && !(1 <= p.opCode <= 7) ==> m == ModeUnknown
    ensures m != ModeDfu
  {
    if !p.validData then ModeUnknown
    else match p.opCode
      case 1 =>
        var bitmaskArray := Conversion.Uint8ToBitArray(p.data[4]);
        if bitmaskArray[7] && Conversion.BytesToUint16([p.data[1], p.data[2]]) == 0 then ModeSetup
        else ModeOperation
      case 2 => ModeOperation
      case 3 => ModeOperation
      case 4 => ModeSetup
      case 5 => ModeOperation
      case 7 => ModeOperation
      case 6 => ModeSetup
      case _ => ModeUnknown
  }

  /** _getLegacyDeviceType: the device type implied by the service-data UUID;
      without a UUID the device type is left as it was. */
  function LegacyDeviceType(serviceUuid: Option<ServiceUuid>, current: DeviceType): DeviceType {
    match serviceUuid
    case None => current
    case Some(PlugAdvertisementUuid) => Plug
    case Some(BuiltinAdvertisementUuid) => Builtin
    case Some(GuidestoneAdvertisementUuid) => Guidestone
    case Some(_) => Undefined
  }

  /** getDeviceTypeFromPublicData: byte 1 of an 18-byte frame, or undefined
      when that byte is not a known device type. Other frames are left alone. */
  function PublicDeviceType(data: seq<u8>, current: DeviceType, knownTypes: set<u8>): (t: DeviceType)
    ensures |data| != 18 ==> t == current
    ensures |data| == 18 && data[1] in knownTypes ==> t == FromRaw(data[1])
    ensures |data| == 18 && data[1] !in knownTypes ==> t == Undefined
  {
    if |data| == 18 then
      if data[1] in knownTypes then FromRaw(data[1]) else Undefined
    else current
  }

  /** parse(decryptedData:): opcodes 1-4 take their device type from the
      service UUID, all others from the public header; opcodes 1-6 go to their
      own parser and every other opcode (7 included) to the opcode-5 parser.
      An invalid frame is left untouched. */
  function Parse(p: Packet, decrypted: seq<u8>, knownTypes: set<u8>): (r: Packet)
    requires WellFormed(p)
    ensures WellFormed(r)
    ensures !p.validData ==> r == p
    ensures r.data == p.data && r.opCode == p.opCode && r.validData == p.validData
    ensures r.serviceUuid == p.serviceUuid && r.dataReadyForUse == p.dataReadyForUse
    ensures r.encryptedDataStartIndex == p.encryptedDataStartIndex
    ensures p.validData && 1 <= p.opCode <= 4 ==> r.deviceType == LegacyDeviceType(p.serviceUuid, p.deviceType)
    ensures p.validData && !(1 <= p.opCode <= 4) ==> r.deviceType == PublicDeviceType(p.data, p.deviceType, knownTypes)
    ensures p.validData && 1 <= p.opCode <= 6 ==> r.parsedWith == Some(ParserCall(p.opCode, decrypted))
    ensures p.validData && !(1 <= p.opCode <= 6) ==> r.parsedWith == Some(ParserCall(5, decrypted))
  {
    if !p.validData then p
    else
      var legacy := p.(deviceType := LegacyDeviceType(p.serviceUuid, p.deviceType));
      var fromHeader := p.(deviceType := PublicDeviceType(p.data, p.deviceType, knownTypes));
      match p.opCode
      case 1 => legacy.(parsedWith := Some(ParserCall(1, decrypted)))
      case 2 => legacy.(parsedWith := Some(ParserCall(2, decrypted)))
      case 3 => legacy.(parsedWith := Some(ParserCall(3, decrypted)))
      case 4 => legacy.(parsedWith := Some(ParserCall(4, decrypted)))
      case 5 => fromHeader.(parsedWith := Some(ParserCall(5, decrypted)))
      case 7 => fromHeader.(parsedWith := Some(ParserCall(5, decrypted)))
      case 6 => fromHeader.(parsedWith := Some(ParserCall(6, decrypted)))
      case _ => fromHeader.(parsedWith := Some(ParserCall(5, decrypted)))
  }

  /** parsePublic: only the device type, chosen as parse chooses it. */
  function ParsePublic(p: Packet, knownTypes: set<u8>): (r: Packet)
    requires WellFormed(p)
    ensures r == p.(deviceType := Parse(p, [], knownTypes).deviceType)
  {
    if !p.validData then p
    else if 1 <= p.opCode <= 4 then p.(deviceType := LegacyDeviceType(p.serviceUuid, p.deviceType))
    else p.(deviceType := PublicDeviceType(p.data, p.deviceType, knownTypes))
  }

  /** parseWithoutDecrypting: parse the bytes from the encrypted start index
      on as they are. Slicing traps only when the frame is shorter than that
      index, which a valid frame never is. */
  function ParseWithoutDecrypting(p: Packet, knownTypes: set<u8>): (r: Outcome<Packet>)
    requires WellFormed(p)
    ensures r.Trapped? <==> |p.data| < p.encryptedDataStartIndex
    ensures p.validData ==> r.Done? && r.value.parsedWith.Some? && |r.value.parsedWith.value.input| == 16
    ensures r.Done? ==> r.value == Parse(p, p.data[p.encryptedDataStartIndex..], knownTypes)
  {
    if |p.data| < p.encryptedDataStartIndex then Trapped
    else Done(Parse(p, p.data[p.encryptedDataStartIndex..], knownTypes))
  }

  /** decrypt(key): `decrypted` is what the decryption routine returned for the
      bytes from the encrypted start index on (None when it threw). Success
      parses the plaintext and marks the packet ready; failure marks it not
      ready and parses nothing. An invalid frame is left untouched. */
  function Decrypt(p: Packet, decrypted: Option<seq<u8>>, knownTypes: set<u8>): (r: Packet)
    requires WellFormed(p)
    ensures WellFormed(r)
    ensures !p.validData ==> r == p
    ensures p.validData ==> (r.dataReadyForUse <==> decrypted.Some?)
    ensures p.validData && decrypted.None? ==> r == p.(dataReadyForUse := false)
    ensures p.validData && decrypted.Some? ==>
              r.parsedWith.Some? && r.parsedWith.value.input == decrypted.value
    ensures r.data == p.data && r.validData == p.validData
  {
    if !p.validData then p
    else match decrypted
      case Some(plain) => Parse(p, plain, knownTypes).(dataReadyForUse := true)
      case None => p.(dataReadyForUse := false)
  }

  /** hasCrownstoneDataFormat is the frame-length verdict. */
  function HasCrownstoneDataFormat(p: Packet): bool {
    p.validData
  }

  /** Device type source, end to end: for a newly built 18-byte frame with opcode 5
      or higher, the type is read from byte 1; for opcodes 1-4 it comes from
      the UUID alone, whatever byte 1 holds. */
  lemma DeviceTypeSource(data: seq<u8>, uuid: Option<ServiceUuid>, decrypted: seq<u8>, knownTypes: set<u8>)
    requires |data| == 18
    ensures var r := Parse(Init(data, uuid), decrypted, knownTypes);
            && (data[0] >= 5 ==> r.deviceType == (if data[1] in knownTypes then FromRaw(data[1]) else Undefined))
            && (1 <= data[0] <= 4 ==> r.deviceType == LegacyDeviceType(uuid, Unset))
  {
  }
}
