/** Parsing of the control-result packets a Crownstone sends back: the v1 layout
    [type, opCode, length(2), payload] and the v2 layout
    [commandType(2), resultCode(2), size(2), payload].

    Both loaders as written copy the payload with an inclusive range
    (4...4+length, 6...6+size): they read one byte past the declared payload,
    so a packet of exactly the declared size traps and a longer one yields one
    extra payload byte. The *AsWritten functions model that; LoadV1 and LoadV2
    read exactly the declared payload and are what the rest of the model uses. */
module ResultPacket {
  import opened Bytes
  import opened Wrappers
  import Conversion

  /** An enum field decoded from a 16-bit raw value: UNSPECIFIED until a raw
      value the enum knows has been read. */
  datatype EnumValue = Unspecified | Known(raw: u16)

  /** The raw values of the ResultValue and ControlTypeV2 enums. The enums are
      not part of this model, so their value sets are parameters. */
  datatype ProtocolEnums = ProtocolEnums(resultValues: set<u16>, controlTypes: set<u16>)

  datatype PacketV1 = PacketV1(
    valid: bool,
    packetType: u8,
    opCode: u8,
    length: u16,
    commandTypeUInt16: u16,
    resultCode: EnumValue,
    payload: seq<u8>)

  datatype PacketV2 = PacketV2(
    valid: bool,
    commandType: EnumValue,
    commandTypeUInt16: u16,
    resultCode: EnumValue,
    size: u16,
    payload: seq<u8>)

  /** A freshly constructed packet, before load. */
  const EmptyV1 := PacketV1(true, 0, 0, 0, 65535, Unspecified, [])
  const EmptyV2 := PacketV2(true, Unspecified, 65535, Unspecified, 0, [])

  /** The resultCode a v1 payload carries in its first two bytes. */
  function PayloadResultCode(payload: seq<u8>, length: u16, enums: ProtocolEnums): EnumValue
    requires length >= 2 ==> |payload| >= 2
  {
    if length >= 2 && Conversion.BytesToUint16(payload) in enums.resultValues
    then Known(Conversion.BytesToUint16(payload))
    else Unspecified
  }

  // ---------------------------------------------------------------------------
  // v1

  /** ResultPacket.load as written: the payload loop runs over 4...4+length. */
  function LoadV1AsWritten(data: seq<u8>, enums: ProtocolEnums): (r: Outcome<PacketV1>)
    ensures |data| < 4 ==> r == Done(EmptyV1.(valid := false))
    ensures r.Trapped? <==> |data| >= 4 && |data| == 4 + Conversion.BytesToUint16(data[2..4])
    ensures r.Done? && |data| >= 4 ==>
              && r.value.packetType == data[0] && r.value.opCode == data[1]
              && r.value.commandTypeUInt16 == data[0]
              && r.value.length == Conversion.BytesToUint16(data[2..4])
    ensures r.Done? && |data| >= 4 ==> (r.value.valid <==> |data| > 4 + r.value.length)
    ensures r.Done? && r.value.valid ==> r.value.payload == data[4..4 + r.value.length + 1]
    ensures r.Done? ==> r.value == LoadV1(data, enums).(payload := r.value.payload)
  {
    if |data| < 4 then Done(EmptyV1.(valid := false))
    else
      var length := Conversion.BytesToUint16([data[2], data[3]]);
      var totalSize := 4 + length;
      var header := EmptyV1.(packetType := data[0], opCode := data[1], length := length, commandTypeUInt16 := data[0]);
      if |data| >= totalSize then
        if totalSize >= |data| then Trapped  // data[totalSize] is one past the end
        else
          var payload := data[4..totalSize + 1];
          Done(header.(payload := payload, resultCode := PayloadResultCode(payload, length, enums)))
      else
        Done(header.(valid := false))
  }

  /** ResultPacket.load with the payload range corrected to 4..<4+length. */
  function LoadV1(data: seq<u8>, enums: ProtocolEnums): (r: PacketV1)
    ensures |data| < 4 ==> r == EmptyV1.(valid := false)
    ensures |data| >= 4 ==>
              && r.packetType == data[0] && r.opCode == data[1]
              && r.commandTypeUInt16 == data[0]
              && r.length == Conversion.BytesToUint16(data[2..4])
    ensures r.valid <==> |data| >= 4 && |data| >= 4 + r.length
    ensures r.valid ==> r.payload == data[4..4 + r.length]
    ensures !r.valid ==> r.payload == [] && r.resultCode == Unspecified
    ensures r.length < 2 ==> r.resultCode == Unspecified
    ensures r.valid && r.length >= 2 ==>
              var code := Conversion.BytesToUint16(r.payload[0..2]);
              r.resultCode == (if code in enums.resultValues then Known(code) else Unspecified)
  {
    if |data| < 4 then EmptyV1.(valid := false)
    else
      var length := Conversion.BytesToUint16([data[2], data[3]]);
      var totalSize := 4 + length;
      var header := EmptyV1.(packetType := data[0], opCode := data[1], length := length, commandTypeUInt16 := data[0]);
      if |data| >= totalSize then
        var payload := data[4..totalSize];
        header.(payload := payload, resultCode := PayloadResultCode(payload, length, enums))
      else
        header.(valid := false)
  }

  /** The bytes of a v1 result packet carrying the given payload. */
  function EncodeV1(packetType: u8, opCode: u8, payload: seq<u8>): (r: seq<u8>)
    requires |payload| < 0x1_0000
    ensures |r| == 4 + |payload|
  {
    [packetType, opCode] + Conversion.Uint16ToBytes(|payload|) + payload
  }

  /** Loading an encoded v1 packet recovers its header and payload. */
  lemma LoadV1RoundTrip(packetType: u8, opCode: u8, payload: seq<u8>, enums: ProtocolEnums)
    requires |payload| < 0x1_0000
    ensures var p := LoadV1(EncodeV1(packetType, opCode, payload), enums);
            p.valid && p.packetType == packetType && p.opCode == opCode
            && p.length == |payload| && p.payload == payload
    ensures |payload| >= 2 && Conversion.BytesToUint16(payload) in enums.resultValues ==>
              LoadV1(EncodeV1(packetType, opCode, payload), enums).resultCode
              == Known(Conversion.BytesToUint16(payload))
  {
    var data := EncodeV1(packetType, opCode, payload);
    assert data[2..4] == Conversion.Uint16ToBytes(|payload|);
    assert data[4..] == payload;
  }

  /** As written, every exactly-sized v1 packet traps, and one trailing extra
      byte is taken into the payload. */
  lemma LoadV1AsWrittenOverrun(packetType: u8, opCode: u8, payload: seq<u8>, extra: u8, enums: ProtocolEnums)
    requires |payload| < 0x1_0000
    ensures LoadV1AsWritten(EncodeV1(packetType, opCode, payload), enums) == Trapped
    ensures var p := LoadV1AsWritten(EncodeV1(packetType, opCode, payload) + [extra], enums);
            p.Done? && p.value.valid && p.value.payload == payload + [extra]
  {
    var data := EncodeV1(packetType, opCode, payload);
    assert data[2..4] == Conversion.Uint16ToBytes(|payload|);
    var longer := data + [extra];
    assert longer[2..4] == data[2..4];
    assert longer[4..4 + |payload| + 1] == payload + [extra];
  }

  /** Where the v1 loader as written does not trap it agrees with the corrected
      one, except that a valid payload carries the byte after the declared end. */
  lemma LoadV1AsWrittenExtendsCorrected(data: seq<u8>, enums: ProtocolEnums)
    ensures LoadV1AsWritten(data, enums).Done? && LoadV1AsWritten(data, enums).value.valid ==>
              var p := LoadV1(data, enums);
              p.valid && |data| > 4 + p.length
              && LoadV1AsWritten(data, enums).value.payload == p.payload + [data[4 + p.length]]
    ensures LoadV1AsWritten(data, enums).Done? && !LoadV1AsWritten(data, enums).value.valid ==>
              LoadV1AsWritten(data, enums).value == LoadV1(data, enums)
  {
  }

  // ---------------------------------------------------------------------------
  // v2

  /** ResultPacketV2.load as written: the payload loop runs over 6...6+size. */
  function LoadV2AsWritten(data: seq<u8>, enums: ProtocolEnums): (r: Outcome<PacketV2>)
    ensures |data| < 6 ==> r == Done(EmptyV2.(valid := false))
    ensures |data| >= 6 && (Conversion.BytesToUint16(data[0..2]) !in enums.controlTypes
                            || Conversion.BytesToUint16(data[2..4]) !in enums.resultValues)
            ==> r == Done(EmptyV2.(valid := false))
    ensures r.Trapped? <==>
              && |data| >= 6
              && Conversion.BytesToUint16(data[0..2]) in enums.controlTypes
              && Conversion.BytesToUint16(data[2..4]) in enums.resultValues
              && |data| == 6 + Conversion.BytesToUint16(data[4..6])
    ensures r.Done? ==> (r.value.valid <==> LoadV2(data, enums).valid && |data| > 6 + r.value.size)
    ensures r.Done? && r.value.valid ==> r.value.payload == data[6..6 + r.value.size + 1]
    ensures r.Done? ==> r.value == LoadV2(data, enums).(payload := r.value.payload)
  {
    if |data| < 6 then Done(EmptyV2.(valid := false))
    else
      var commandType := Conversion.BytesToUint16([data[0], data[1]]);
      var resultCode := Conversion.BytesToUint16([data[2], data[3]]);
      if commandType !in enums.controlTypes || resultCode !in enums.resultValues then
        Done(EmptyV2.(valid := false))
      else
        var size := Conversion.BytesToUint16([data[4], data[5]]);
        var header := EmptyV2.(commandType := Known(commandType), commandTypeUInt16 := commandType,
                               resultCode := Known(resultCode), size := size);
        var totalSize := 6 + size;
        if |data| >= totalSize then
          if totalSize >= |data| then Trapped  // data[totalSize] is one past the end
          else Done(header.(payload := data[6..totalSize + 1]))
        else
          Done(header.(valid := false))
  }

  /** Where the v2 loader as written does not trap it agrees with the corrected
      one, except that a valid payload carries the byte after the declared end. */
  lemma LoadV2AsWrittenExtendsCorrected(data: seq<u8>, enums: ProtocolEnums)
    ensures LoadV2AsWritten(data, enums).Done? && LoadV2AsWritten(data, enums).value.valid ==>
              var p := LoadV2(data, enums);
              p.valid && |data| > 6 + p.size
              && LoadV2AsWritten(data, enums).value.payload == p.payload + [data[6 + p.size]]
    ensures LoadV2AsWritten(data, enums).Done? && !LoadV2AsWritten(data, enums).value.valid ==>
              LoadV2AsWritten(data, enums).value == LoadV2(data, enums)
  {
  }

  /** ResultPacketV2.load with the payload range corrected to 6..<6+size. */
  function LoadV2(data: seq<u8>, enums: ProtocolEnums): (r: PacketV2)
    ensures r.valid <==>
              && |data| >= 6
              && Conversion.BytesToUint16(data[0..2]) in enums.controlTypes
              && Conversion.BytesToUint16(data[2..4]) in enums.resultValues
              && |data| >= 6 + Conversion.BytesToUint16(data[4..6])
    ensures r.valid ==>
              && r.commandType == Known(Conversion.BytesToUint16(data[0..2]))
              && r.commandTypeUInt16 == Conversion.BytesToUint16(data[0..2])
              && r.resultCode == Known(Conversion.BytesToUint16(data[2..4]))
              && r.size == Conversion.BytesToUint16(data[4..6])
              && r.payload == data[6..6 + r.size]
    ensures !r.valid ==> r.payload == []
  {
    if |data| < 6 then EmptyV2.(valid := false)
    else
      var commandType := Conversion.BytesToUint16([data[0], data[1]]);
      var resultCode := Conversion.BytesToUint16([data[2], data[3]]);
      if commandType !in enums.controlTypes || resultCode !in enums.resultValues then
        EmptyV2.(valid := false)
      else
        var size := Conversion.BytesToUint16([data[4], data[5]]);
        var header := EmptyV2.(commandType := Known(commandType), commandTypeUInt16 := commandType,
                               resultCode := Known(resultCode), size := size);
        var totalSize := 6 + size;
        if |data| >= totalSize then header.(payload := data[6..totalSize])
        else header.(valid := false)
  }

  /** An invalid v2 packet that failed on its enum fields still has every
      field at its default: the loader returned before setting any. */
  lemma LoadV2UnknownEnumKeepsDefaults(data: seq<u8>, enums: ProtocolEnums)
    requires |data| >= 6
    requires Conversion.BytesToUint16(data[0..2]) !in enums.controlTypes
    ensures LoadV2(data, enums) == EmptyV2.(valid := false)
  {
  }

  /** The bytes of a v2 result packet. */
  function EncodeV2(commandType: u16, resultCode: u16, payload: seq<u8>): (r: seq<u8>)
    requires |payload| < 0x1_0000
    ensures |r| == 6 + |payload|
  {
    Conversion.Uint16ToBytes(commandType) + Conversion.Uint16ToBytes(resultCode)
      + Conversion.Uint16ToBytes(|payload|) + payload
  }

  /** Loading an encoded v2 packet with known enum values recovers it. */
  lemma LoadV2RoundTrip(commandType: u16, resultCode: u16, payload: seq<u8>, enums: ProtocolEnums)
    requires |payload| < 0x1_0000
    requires commandType in enums.controlTypes && resultCode in enums.resultValues
    ensures var p := LoadV2(EncodeV2(commandType, resultCode, payload), enums);
            p.valid && p.commandType == Known(commandType) && p.resultCode == Known(resultCode)
            && p.size == |payload| && p.payload == payload
  {
    var data := EncodeV2(commandType, resultCode, payload);
    assert data[0..2] == Conversion.Uint16ToBytes(commandType);
    assert data[2..4] == Conversion.Uint16ToBytes(resultCode);
    assert data[4..6] == Conversion.Uint16ToBytes(|payload|);
    assert data[6..] == payload;
  }

  /** As written, every exactly-sized v2 packet with known enum values traps. */
  lemma LoadV2AsWrittenOverrun(commandType: u16, resultCode: u16, payload: seq<u8>, enums: ProtocolEnums)
    requires |payload| < 0x1_0000
    requires commandType in enums.controlTypes && resultCode in enums.resultValues
    ensures LoadV2AsWritten(EncodeV2(commandType, resultCode, payload), enums) == Trapped
  {
    var data := EncodeV2(commandType, resultCode, payload);
    assert data[0..2] == Conversion.Uint16ToBytes(commandType);
    assert data[2..4] == Conversion.Uint16ToBytes(resultCode);
    assert data[4..6] == Conversion.Uint16ToBytes(|payload|);
  }
}
