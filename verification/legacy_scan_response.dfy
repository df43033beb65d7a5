/** The older advertisement packet class (ScanResponsePacket in BluenetLib/):
    parsing by opcode, the setup-mode test and in-place decryption.

    The frame is stored next to the decoded fields. Decryption itself is done
    by the encryption handler, which is not part of this model: its outcome
    (the decrypted bytes, or None when it throws) is a parameter. */
module LegacyScanResponse {
  import opened Bytes
  import opened Wrappers
  import opened LegacyPacket
  import Opcode3

  datatype Packet = Packet(data: seq<u8>, validData: bool, fields: Fields)

  /** The frame is 17 bytes whenever it is marked valid. */
  predicate WellFormed(p: Packet) {
    p.validData ==> |p.data| == 17
  }

  /** parse(): only a 17-byte frame is decoded and marked valid. Opcodes 1, 2
      and 4 have their own parsers; opcode 3 and every unknown opcode go
      through the opcode-3 dispatcher, which receives the whole frame. */
  function Parse(p: Packet, ctx: ParseContext): (r: Packet)
    ensures WellFormed(r)
    ensures r.data == p.data
    ensures r.validData <==> |p.data| == 17
    ensures |p.data| != 17 ==> r.fields == p.fields
    ensures |p.data| == 17 ==>
              var f := p.fields.(opCode := p.data[0]);
              && (p.data[0] == 1 ==> r.fields == ctx.external(Opcode1, f, p.data))
              && (p.data[0] == 2 ==> r.fields == ctx.external(Opcode2, f, p.data))
              && (p.data[0] == 4 ==> r.fields == ctx.external(Opcode4, f, p.data))
              && (p.data[0] !in {1, 2, 4} ==> r.fields == Opcode3.Parse(f, p.data, ctx))
  {
    if |p.data| == 17 then
      var f := p.fields.(opCode := p.data[0]);
      var fields := match p.data[0]
        case 1 => ctx.external(Opcode1, f, p.data)
        case 2 => ctx.external(Opcode2, f, p.data)
        case 4 => ctx.external(Opcode4, f, p.data)
        case _ => Opcode3.Parse(f, p.data, ctx);
      p.(fields := fields, validData := true)
    else
      p.(validData := false)
  }

  /** init(data): default fields, then parse. */
  function Init(data: seq<u8>, ctx: ParseContext): (r: Packet)
    ensures WellFormed(r) && r.data == data
    ensures r.validData <==> |data| == 17
    ensures |data| != 17 ==> r.fields == DefaultFields
  {
    Parse(Packet(data, false, DefaultFields), ctx)
  }

  /** Because the opcode is also byte 0 of what the opcode-3 dispatcher reads
      as its data type, a frame with opcode 3 is always decoded as type 3, and
      one with opcode 0 or 5 and up as type 0; type 1 and 2 layouts are never
      reached through this path. */
  lemma Opcode3FramesAreType3(p: Packet, ctx: ParseContext)
    requires |p.data| == 17 && p.data[0] == 3
    ensures Parse(p, ctx).fields == ctx.external(Opcode3Type3, p.fields.(opCode := 3, dataType := 3), p.data)
  {
  }

  /** isSetupPackage(): never for an invalid frame; opcodes 1 and 2 when every
      reading is zero and the setup flag is set; always for opcode 4. */
  function IsSetupPackage(p: Packet): (setup: bool)
    ensures setup ==> p.validData && p.fields.opCode in {1, 2, 4}
    ensures p.validData && p.fields.opCode == 4 ==> setup
    ensures p.validData && p.fields.opCode in {1, 2} ==>
              (setup <==> && p.fields.crownstoneId == 0 && p.fields.switchState == 0
                          && p.fields.powerUsageReal == 0.0 && p.fields.accumulatedEnergy == 0
                          && p.fields.setupMode)
  {
    p.validData &&
    match p.fields.opCode
    case 1 | 2 =>
      var f := p.fields;
      f.crownstoneId == 0 && f.switchState == 0 && f.powerUsageReal == 0.0
      && f.accumulatedEnergy == 0 && f.setupMode
    case 4 => true
    case _ => false
  }

  /** Only a decoded 17-byte frame can be a setup package, and a 17-byte frame
      with opcode 4 is one whenever its opcode-4 parser keeps the opcode. */
  lemma SetupPackagesFromInit(data: seq<u8>, ctx: ParseContext)
    ensures IsSetupPackage(Init(data, ctx)) ==> |data| == 17
    ensures |data| == 17 && data[0] == 4
            && ctx.external(Opcode4, DefaultFields.(opCode := 4), data).opCode == 4
            ==> IsSetupPackage(Init(data, ctx))
  {
  }

  /** hasCrownstoneDataFormat(). */
  predicate HasCrownstoneDataFormat(p: Packet) {
    p.validData
  }

  /** The 16 bytes handed to the decryption handler: the frame after byte 0. */
  function EncryptedPart(p: Packet): (r: seq<u8>)
    requires WellFormed(p) && p.validData
    ensures |r| == 16
    ensures forall i :: 1 <= i < 17 ==> r[i - 1] == p.data[i]
  {
    p.data[1..]
  }

  /** decrypt(key). An invalid packet and a decryption that throws leave the
      packet as it is. Otherwise the decrypted bytes overwrite the frame from
      byte 1 on and the frame is parsed again. Copying traps on an empty
      result (the range 0...-1) and on one longer than 16 bytes (an index past
      the frame). */
  function Decrypt(p: Packet, decrypted: Option<seq<u8>>, ctx: ParseContext): (r: Outcome<Packet>)
    requires WellFormed(p)
    ensures r.Trapped? <==> p.validData && decrypted.Some? && (|decrypted.value| == 0 || |decrypted.value| > 16)
    ensures !p.validData || decrypted.None? ==> r == Done(p)
    ensures r.Done? && p.validData && decrypted.Some? ==>
              var out := decrypted.value;
              && |r.value.data| == 17 && r.value.data[0] == p.data[0]
              && r.value.data[1..1 + |out|] == out
              && r.value.data[1 + |out|..] == p.data[1 + |out|..]
              && r.value == Parse(p.(data := r.value.data), ctx)
  {
    if !p.validData then Done(p)
    else
      match decrypted
      case None => Done(p)
      case Some(out) =>
        if |out| == 0 || |out| > 16 then Trapped
        else
          var spliced := p.data[..1] + out + p.data[1 + |out|..];
          Done(Parse(p.(data := spliced), ctx))
  }

  /** Decrypting a valid packet with a full 16-byte result gives exactly the
      packet that the reassembled frame would have been parsed into. */
  lemma DecryptFullBlock(p: Packet, out: seq<u8>, ctx: ParseContext)
    requires WellFormed(p) && p.validData && |out| == 16
    ensures Decrypt(p, Some(out), ctx) == Done(Parse(p.(data := [p.data[0]] + out), ctx))
  {
    assert p.data[..1] + out + p.data[17..] == [p.data[0]] + out;
  }
}
