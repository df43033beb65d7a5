/** DebugHandler: the behaviour-debug query and the control-packet routing it
    shares with the other handlers.

    The request packet (ControlPacketV2 of type getBehaviourDebug), the two
    control-packet writers and the 64-bit-to-bit-array conversion are not part
    of this model: the writers are named by which one is chosen, and the
    64-bit fields are kept as numbers. */
module DebugHandler {
  import opened Bytes
  import opened Wrappers
  import opened Errors
  import opened Gatt
  import DataStepper
  import ResultPacket
  import Conversion

  datatype BehaviourDebug = BehaviourDebug(
    time: u32,
    sunrise: u32,
    sunset: u32,
    overrideState: u8,
    behaviourState: u8,
    aggregatedState: u8,
    dimmerPowered: u8,
    behaviourEnabled: u8,
    activeBehaviours: u64,
    activeEndConditions: u64,
    behavioursInTimeoutPeriod: u64,
    presenceProfiles: seq<u64>)

  /** Bytes of the debug payload the reads consume: 3 * 4 + 5 * 1 + 11 * 8. */
  const PayloadSize := 105

  /** n consecutive 64-bit reads. */
  function ReadUInt64s(rest: seq<u8>, n: nat): (r: Result<(seq<u64>, seq<u8>), BluenetError>)
    ensures r.Ok? <==> 8 * n <= |rest|
    ensures r.Ok? ==> |r.value.0| == n && r.value.1 == rest[8 * n..]
    ensures r.Ok? ==> forall i :: 0 <= i < n ==> r.value.0[i] == LittleEndian(rest[8 * i..8 * i + 8])
    ensures r.Err? ==> r.error == NotEnoughData
    decreases n
  {
    if n == 0 then Ok(([], rest))
    else
      var (v, tail) :- DataStepper.GetUInt64(rest);
      var (more, after) :- ReadUInt64s(tail, n - 1);
      forall i | 1 <= i < n
        ensures tail[8 * (i - 1)..8 * (i - 1) + 8] == rest[8 * i..8 * i + 8]
      {
        SliceOfSuffix(rest, 8, 8 * (i - 1), 8 * (i - 1) + 8);
      }
      Ok(([v] + more, after))
  }

  /** The three 32-bit and five 8-bit reads at the head of the payload. */
  function ReadHeader(p: seq<u8>): (r: Result<(seq<u32>, seq<u8>, seq<u8>), BluenetError>)
    ensures r.Ok? <==> 17 <= |p|
    ensures r.Ok? ==> |r.value.0| == 3 && r.value.1 == p[12..17] && r.value.2 == p[17..]
    ensures r.Ok? ==> forall i :: 0 <= i < 3 ==> r.value.0[i] == LittleEndian(p[4 * i..4 * i + 4])
    ensures r.Err? ==> r.error == NotEnoughData
  {
    var (time, a) :- DataStepper.GetUInt32(p);
    var (sunrise, b) :- DataStepper.GetUInt32(a);
    var (sunset, c) :- DataStepper.GetUInt32(b);
    var (s0, d) :- DataStepper.GetUInt8(c);
    var (s1, e) :- DataStepper.GetUInt8(d);
    var (s2, f) :- DataStepper.GetUInt8(e);
    var (s3, g) :- DataStepper.GetUInt8(f);
    var (s4, h) :- DataStepper.GetUInt8(g);
    assert a[..4] == p[4..8] && b[..4] == p[8..12];
    assert [s0, s1, s2, s3, s4] == p[12..17];
    Ok(([time, sunrise, sunset], [s0, s1, s2, s3, s4], h))
  }

  /** The payload reads of getBehaviourDebugInformation, in order. */
  function DecodePayload(p: seq<u8>): (r: Result<BehaviourDebug, BluenetError>)
    ensures r.Ok? <==> |p| >= PayloadSize
    ensures r.Err? ==> r.error == NotEnoughData
    ensures r.Ok? ==>
              && r.value.time == LittleEndian(p[0..4])
              && r.value.sunrise == LittleEndian(p[4..8])
              && r.value.sunset == LittleEndian(p[8..12])
              && [r.value.overrideState, r.value.behaviourState, r.value.aggregatedState,
                  r.value.dimmerPowered, r.value.behaviourEnabled] == p[12..17]
              && r.value.activeBehaviours == LittleEndian(p[17..25])
              && r.value.activeEndConditions == LittleEndian(p[25..33])
              && r.value.behavioursInTimeoutPeriod == LittleEndian(p[33..41])
              && |r.value.presenceProfiles| == 8
              && forall i :: 0 <= i < 8 ==> r.value.presenceProfiles[i] == LittleEndian(p[41 + 8 * i..49 + 8 * i])
  {
    var (words, states, rest) :- ReadHeader(p);
    var (masks, _) :- ReadUInt64s(rest, 11);
    var d := BehaviourDebug(words[0], words[1], words[2], states[0], states[1], states[2], states[3], states[4],
                            masks[0], masks[1], masks[2], masks[3..]);
    assert d.time == LittleEndian(p[0..4]) && d.sunrise == LittleEndian(p[4..8]) && d.sunset == LittleEndian(p[8..12]);
    MasksAt(p, rest, masks);
    Ok(d)
  }

  /** Where the eleven 64-bit reads sit in the payload. */
  lemma MasksAt(p: seq<u8>, rest: seq<u8>, masks: seq<u64>)
    requires |p| >= PayloadSize && rest == p[17..] && |masks| == 11
    requires forall i :: 0 <= i < 11 ==> masks[i] == LittleEndian(rest[8 * i..8 * i + 8])
    ensures masks[0] == LittleEndian(p[17..25])
    ensures masks[1] == LittleEndian(p[25..33])
    ensures masks[2] == LittleEndian(p[33..41])
    ensures forall i :: 0 <= i < 8 ==> masks[3..][i] == LittleEndian(p[41 + 8 * i..49 + 8 * i])
  {
    SliceOfSuffix(p, 17, 0, 8);
    SliceOfSuffix(p, 17, 8, 16);
    SliceOfSuffix(p, 17, 16, 24);
    forall i | 0 <= i < 8
      ensures masks[3..][i] == LittleEndian(p[41 + 8 * i..49 + 8 * i])
    {
      SliceOfSuffix(p, 17, 8 * (i + 3), 8 * (i + 3) + 8);
      assert masks[3..][i] == masks[i + 3];
    }
  }

  /** The payload a Crownstone would send for this debug information. */
  function EncodePayload(d: BehaviourDebug): (r: seq<u8>)
    requires |d.presenceProfiles| == 8
    ensures |r| == PayloadSize
  {
    var masks := [d.activeBehaviours, d.activeEndConditions, d.behavioursInTimeoutPeriod] + d.presenceProfiles;
    LittleEndianBytes(d.time, 4) + LittleEndianBytes(d.sunrise, 4) + LittleEndianBytes(d.sunset, 4)
      + [d.overrideState, d.behaviourState, d.aggregatedState, d.dimmerPowered, d.behaviourEnabled]
      + EncodeUInt64s(masks)
  }

  function EncodeUInt64s(vs: seq<u64>): (r: seq<u8>)
    ensures |r| == 8 * |vs|
  {
    if |vs| == 0 then [] else LittleEndianBytes(vs[0], 8) + EncodeUInt64s(vs[1..])
  }

  lemma GetEncodedUInt64(v: u64, rest: seq<u8>)
    ensures DataStepper.GetUInt64(LittleEndianBytes(v, 8) + rest) == Ok((v, rest))
  {
    var s := LittleEndianBytes(v, 8) + rest;
    assert s[..8] == LittleEndianBytes(v, 8) && s[8..] == rest;
    Pow2Long();
    LittleEndianRoundTrip(v, 8);
  }

  lemma {:induction false} ReadEncodedUInt64s(vs: seq<u64>)
    ensures ReadUInt64s(EncodeUInt64s(vs), |vs|) == Ok((vs, []))
  {
    if |vs| > 0 {
      var s := EncodeUInt64s(vs);
      ReadEncodedUInt64s(vs[1..]);
      assert s[..8] == LittleEndianBytes(vs[0], 8) && s[8..] == EncodeUInt64s(vs[1..]);
      GetEncodedUInt64(vs[0], s[8..]);
      assert [vs[0]] + vs[1..] == vs;
    }
  }

  /** Decoding the encoded payload gives back the debug information. */
  lemma PayloadRoundTrip(d: BehaviourDebug)
    requires |d.presenceProfiles| == 8
    ensures DecodePayload(EncodePayload(d)) == Ok(d)
  {
    var masks := [d.activeBehaviours, d.activeEndConditions, d.behavioursInTimeoutPeriod] + d.presenceProfiles;
    EncodedHeader(d);
    ReadEncodedUInt64s(masks);
    assert masks[3..] == d.presenceProfiles;
  }

  /** The header reads of an encoded payload give back its first eight fields
      and leave the encoded 64-bit words. */
  lemma EncodedHeader(d: BehaviourDebug)
    requires |d.presenceProfiles| == 8
    ensures ReadHeader(EncodePayload(d)) ==
              Ok(([d.time, d.sunrise, d.sunset],
                  [d.overrideState, d.behaviourState, d.aggregatedState, d.dimmerPowered, d.behaviourEnabled],
                  EncodeUInt64s([d.activeBehaviours, d.activeEndConditions, d.behavioursInTimeoutPeriod] + d.presenceProfiles)))
  {
    var p := EncodePayload(d);
    Pow2Word();
    LittleEndianRoundTrip(d.time, 4);
    LittleEndianRoundTrip(d.sunrise, 4);
    LittleEndianRoundTrip(d.sunset, 4);
    assert p[0..4] == LittleEndianBytes(d.time, 4);
    assert p[4..8] == LittleEndianBytes(d.sunrise, 4);
    assert p[8..12] == LittleEndianBytes(d.sunset, 4);
    var h := ReadHeader(p);
    assert h.value.0[0] == LittleEndian(p[0..4]);
    assert h.value.0[1] == LittleEndian(p[4..8]);
    assert h.value.0[2] == LittleEndian(p[8..12]);
  }

  /** getBehaviourDebugInformation, from the notification's outcome. A
      notification error is passed on, an invalid result packet is an
      incorrect response length, and a payload too short for the reads is an
      invalid data length. The answer is loaded with ResultPacketV2.load as
      written, so an answer of exactly its declared size traps there. */
  function GetBehaviourDebugInformation(notification: Result<seq<u8>, BluenetError>,
                                        enums: ResultPacket.ProtocolEnums): (r: Outcome<Result<BehaviourDebug, BluenetError>>)
    ensures notification.Err? ==> r == Done(Err(notification.error))
    ensures notification.Ok? ==>
              var loaded := ResultPacket.LoadV2AsWritten(notification.value, enums);
              && (r.Trapped? <==> loaded.Trapped?)
              && (loaded.Done? && !loaded.value.valid ==> r == Done(Err(IncorrectResponseLength)))
              && (loaded.Done? && loaded.value.valid && |loaded.value.payload| < PayloadSize ==>
                    r == Done(Err(InvalidDataLength)))
              && (loaded.Done? && loaded.value.valid && |loaded.value.payload| >= PayloadSize ==>
                    r == Done(DecodePayload(loaded.value.payload)) && r.value.Ok?)
  {
    match notification
    case Err(e) => Done(Err(e))
    case Ok(data) =>
      match ResultPacket.LoadV2AsWritten(data, enums)
      case Trapped => Trapped
      case Done(packet) =>
        if !packet.valid then Done(Err(IncorrectResponseLength))
        else
          match DecodePayload(packet.payload)
          case Err(_) => Done(Err(InvalidDataLength))
          case Ok(d) => Done(Ok(d))
  }

  lemma ReadUInt64sTrailing(rest: seq<u8>, n: nat, extra: seq<u8>)
    requires 8 * n <= |rest|
    ensures ReadUInt64s(rest + extra, n) == Ok((ReadUInt64s(rest, n).value.0, ReadUInt64s(rest, n).value.1 + extra))
  {
    var a := ReadUInt64s(rest, n).value;
    var b := ReadUInt64s(rest + extra, n).value;
    forall i | 0 <= i < n
      ensures b.0[i] == a.0[i]
    {
      assert (rest + extra)[8 * i..8 * i + 8] == rest[8 * i..8 * i + 8];
    }
    assert b.0 == a.0;
    assert (rest + extra)[8 * n..] == rest[8 * n..] + extra;
  }

  lemma ReadHeaderTrailing(p: seq<u8>, extra: seq<u8>)
    requires 17 <= |p|
    ensures ReadHeader(p + extra) == Ok((ReadHeader(p).value.0, ReadHeader(p).value.1, ReadHeader(p).value.2 + extra))
  {
    var a := ReadHeader(p).value;
    var b := ReadHeader(p + extra).value;
    forall i | 0 <= i < 3
      ensures b.0[i] == a.0[i]
    {
      assert (p + extra)[4 * i..4 * i + 4] == p[4 * i..4 * i + 4];
    }
    assert b.0 == a.0;
    assert (p + extra)[12..17] == p[12..17];
    assert (p + extra)[17..] == p[17..] + extra;
  }

  /** Bytes after the 105 the reads consume do not change the decoded dump. */
  lemma DecodeIgnoresTrailing(p: seq<u8>, extra: seq<u8>)
    requires |p| >= PayloadSize
    ensures DecodePayload(p + extra) == DecodePayload(p)
  {
    ReadHeaderTrailing(p, extra);
    ReadUInt64sTrailing(ReadHeader(p).value.2, 11, extra);
  }

  /** The loader's overrun as seen by the debug query: an answer of exactly
      its declared size traps, and with one trailing byte it decodes. */
  lemma DebugAnswerOverrun(commandType: u16, resultCode: u16, d: BehaviourDebug, extra: u8,
                           enums: ResultPacket.ProtocolEnums)
    requires |d.presenceProfiles| == 8
    requires commandType in enums.controlTypes && resultCode in enums.resultValues
    ensures GetBehaviourDebugInformation(Ok(ResultPacket.EncodeV2(commandType, resultCode, EncodePayload(d))), enums)
            == Trapped
    ensures GetBehaviourDebugInformation(Ok(ResultPacket.EncodeV2(commandType, resultCode, EncodePayload(d)) + [extra]), enums)
            == Done(Ok(d))
  {
    var data := ResultPacket.EncodeV2(commandType, resultCode, EncodePayload(d));
    ResultPacket.LoadV2AsWrittenOverrun(commandType, resultCode, EncodePayload(d), enums);
    var longer := data + [extra];
    assert longer[0..2] == data[0..2] && longer[2..4] == data[2..4] && longer[4..6] == data[4..6];
    assert data[0..2] == Conversion.Uint16ToBytes(commandType);
    assert data[2..4] == Conversion.Uint16ToBytes(resultCode);
    assert data[4..6] == Conversion.Uint16ToBytes(PayloadSize);
    assert longer[6..6 + PayloadSize + 1] == EncodePayload(d) + [extra];
    DecodeIgnoresTrailing(EncodePayload(d), [extra]);
    PayloadRoundTrip(d);
  }

  /** The notification is set up on the v2 result characteristic. */
  const DebugNotification := Endpoint(CrownstoneService, ResultV2)

  datatype ControlWriter = SetupControlWriter | GenericControlWriter

  /** _writeControlPacket: the setup writer in setup mode, else the generic one. */
  function WriteControlPacketRoute(state: ConnectionState): (w: ControlWriter)
    ensures w == SetupControlWriter <==> state.operationMode == Setup
  {
    if state.operationMode == Setup then SetupControlWriter else GenericControlWriter
  }

  /** _readControlPacket: the v2 result characteristic for protocol v2, else
      the old control characteristic; always on the Crownstone service. */
  function ReadControlPacketRoute(state: ConnectionState): (e: Endpoint)
    ensures e.service == CrownstoneService
    ensures e.characteristic == ResultV2 <==> state.controlVersion == V2
    ensures e.characteristic == Control <==> state.controlVersion == V1
  {
    match state.controlVersion
    case V2 => Endpoint(CrownstoneService, ResultV2)
    case V1 => Endpoint(CrownstoneService, Control)
  }
}
