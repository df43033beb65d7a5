/** The decoded fields of the older advertisement packet (ScanResponsePacket in
    BluenetLib/), shared by its opcode parsers.

    The decoded fields are kept apart from the frame bytes: the opcode parsers
    write only decoded fields, so a parser is a function from fields to fields.
    Parsers that are not part of this model (opcodes 1, 2, 4 and opcode-3
    types 1-3) are supplied as one function `ExternalParsers`. The
    opcode-3/type-0 parser also writes timeIsSet and switchCraftEnabled, which
    this revision of the packet class does not declare; they are kept here. */
module LegacyPacket {
  import opened Bytes

  datatype Fields = Fields(
    opCode: u8,
    dataType: u8,
    crownstoneId: u8,
    switchState: u8,
    flagsBitmask: u8,
    temperature: int,
    powerFactor: real,
    powerUsageReal: real,
    powerUsageApparent: real,
    accumulatedEnergy: int,
    setupMode: bool,
    stateOfExternalCrownstone: bool,
    dimmingAvailable: bool,
    dimmingAllowed: bool,
    hasError: bool,
    switchLocked: bool,
    timeIsSet: bool,
    switchCraftEnabled: bool,
    partialTimestamp: u16,
    timestamp: real,
    validation: int,
    uniqueIdentifier: nat)

  /** Field values of a newly constructed packet. */
  const DefaultFields := Fields(0, 0, 0, 0, 0, 0, 0.0, 0.0, 0.0, 0, false, false,
                                false, false, false, false, false, false, 0, 0.0, 0, 0)

  /** The parsers that are not part of this model. */
  datatype ExternalParser = Opcode1 | Opcode2 | Opcode4 | Opcode3Type1 | Opcode3Type2 | Opcode3Type3

  type ExternalParsers = (ExternalParser, Fields, seq<u8>) -> Fields

  /** What the parsers need besides the bytes: the unmodelled parsers and the
      value reconstructTimestamp (which reads the wall clock) returns. */
  datatype ParseContext = ParseContext(external: ExternalParsers, reconstructedTimestamp: real)
}
