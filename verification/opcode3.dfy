/** parseOpcode3: dispatch of a 17-byte opcode-3 payload on its data type
    (byte 0). Types 1-3 go to parsers that are not part of this model; type 0
    and every unknown type fall back to the type-0 layout. This revision calls
    the type-0 parser without a liteParse argument; the model passes false. */
module Opcode3 {
  import opened Bytes
  import opened LegacyPacket
  import Opcode3Type0

  function Parse(f: Fields, data: seq<u8>, ctx: ParseContext): (r: Fields)
    ensures |data| != 17 ==> r == f
    ensures |data| == 17 ==>
              var typed := f.(dataType := data[0]);
              && (data[0] == 1 ==> r == ctx.external(Opcode3Type1, typed, data))
              && (data[0] == 2 ==> r == ctx.external(Opcode3Type2, typed, data))
              && (data[0] == 3 ==> r == ctx.external(Opcode3Type3, typed, data))
              && (data[0] !in {1, 2, 3} ==>
                    r == Opcode3Type0.Parse(typed, data, false, ctx.reconstructedTimestamp))
    ensures |data| == 17 && data[0] !in {1, 2, 3} ==> r.dataType == data[0] && r.crownstoneId == data[2]
  {
    if |data| != 17 then f
    else
      var typed := f.(dataType := data[0]);
      match data[0]
      case 1 => ctx.external(Opcode3Type1, typed, data)
      case 2 => ctx.external(Opcode3Type2, typed, data)
      case 3 => ctx.external(Opcode3Type3, typed, data)
      case _ => Opcode3Type0.Parse(typed, data, false, ctx.reconstructedTimestamp)
  }
}
