# bluenet-ios-lib core in Dafny

This project models the decision logic of bluenet-ios-lib, the Swift library that
talks to Crownstone smart plugs over Bluetooth Low Energy. The CoreBluetooth and
promise plumbing is left out. Two halves are modelled:

- **Byte-level protocol decoding.**
  - The `Conversion` helpers: little-endian packing, two's-complement reinterpretation, the bit
    array, hex, MAC and iBeacon UUID text.
  - The v1 and v2 result packets.
  - Both generations of the advertisement scan-response packet, with the opcode-3 dispatcher and
    the opcode-3/type-0 field layout.
  - The `Advertisement` classifier.
  - The switch-history list and the behaviour-debug dump.
  - The 4-byte state header and the behaviour master-hash input.
- **Small state machines and validators.**
  - The single pending-promise slot of the older `BleManager` and its connect, abort and
    disconnect ordering.
  - The per-handle bookkeeping of the newer `BluenetCBDelegate`.
  - The `AvailableDevice` consecutive-match counter.
  - The `SetupHandler` write-and-verify retry and setup sequence.
  - The `ConfigHandler` input whitelists and characteristic routing.

Bytes are the subset types `u8`, `u16`, `u32` and `u64` of `int` (module `Bytes`). A Swift runtime
trap is modelled as an explicit outcome, `Wrappers.Outcome.Trapped`. Causes include a range `a...b`
with `b < a`, an index out of bounds, and a force-unwrapped nil. A thrown error or a rejected promise
is the `Err` case of `Wrappers.Result`, carrying a `BluenetError`.

Some collaborators are not part of this model. They become parameters of the operations that call
them:
- the encryption handler (its outcome, or `None` when it throws);
- the opcode parsers for opcodes 1, 2 and 4 and for opcode-3 types 1 to 3 (`ParseContext.external`);
- the reconstructed timestamp, the Fletcher-32 checksum and the behaviour dictionary parser;
- the `Convert` state decoders;
- the raw values of the protocol enums (sets of known codes);
- the random draws of setup;
- the wall clock;
- the outcome of each GATT step.

`DataStepper` is not part of this model either. Its reads are modelled as a little-endian cursor
that throws `NotEnoughData` when too few bytes remain (module `DataStepper`).

Each source file is modelled as written, including where two revisions of the library disagree. The
two `ScanResponse.swift` files are the modules `LegacyScanResponse` (the older `BluenetLib/` copy)
and `ServiceData` (the `Sources/` copy). Where the code has a defect, the model keeps an "as written"
member next to a corrected one; see "## Findings".

## Model

| member | source | states |
|---|---|---|
| Conversion.BytesToUint16 | BluenetLibIOS/util/Conversion.swift:104-106 | the low byte is the first array byte and the high byte the second (little-endian) |
| Conversion.Uint16ToBytes | BluenetLibIOS/util/Conversion.swift:14-19 | two bytes that decode back to the value |
| Conversion.BytesToUint32 | BluenetLibIOS/util/Conversion.swift:108-114 | byte k of the array is the k-th base-256 digit of the result |
| Conversion.Uint32IsLittleEndian | BluenetLibIOS/util/Conversion.swift:108-114 | the decoded value equals the little-endian reading of the first four bytes |
| Conversion.Uint32ToBytes | BluenetLibIOS/util/Conversion.swift:22-29 | four bytes that decode back to the value |
| Conversion.BytesRoundTrip | BluenetLibIOS/util/Conversion.swift:104-114 | decoding then re-encoding gives back the first two and the first four bytes |
| Conversion.ConversionTestVectors | BluenetLibIOSTests/BluenetLibIOSTests.swift:26-29 | [10,32] decodes to 8202, [10,32,0,2] to 33562634, and 3147483647 reinterprets as -1147483649 |
| Conversion.Uint32ToInt32 | BluenetLibIOS/util/Conversion.swift:116-119 | the result is in the signed 32-bit range and congruent to the input modulo 2^32 |
| Conversion.Int32Unique | BluenetLibIOS/util/Conversion.swift:116-119 | any signed 32-bit value congruent to the input is the reinterpretation, so the function is the two's-complement one |
| Conversion.Uint16ToInt16 | BluenetLib/containerClasses/Advertisements/AdvertisementPayloads/encryptedTypes/opCode3/opCode3_type0.swift:58 | the result is in the signed 16-bit range and congruent to the input modulo 2^16 |
| Conversion.Uint8ToInt8 | BluenetLibIOS/util/Conversion.swift:137-140 | values below 128 are unchanged; 128 and above become value - 256 |
| Conversion.BinaryDigits | BluenetLibIOS/util/Conversion.swift:121-134 | the radix-2 text has no leading zero and reads bit k at position length-1-k |
| Conversion.Uint8ToBitArray | BluenetLibIOS/util/Conversion.swift:121-134 | exactly 8 booleans, most significant first: element i is bit 7-i |
| Conversion.BitsToNat | BluenetLibIOS/util/Conversion.swift:121-134 | the number below 2^n whose bit k is element n-1-k of the flags |
| Conversion.BitArrayToUint8 | BluenetLibIOS/util/Conversion.swift:121-134 | the byte whose bit array is the given eight flags: an inverse of the bit-array conversion |
| Conversion.Uint8ToHexStringAsWritten | BluenetLibIOS/util/Conversion.swift:50-56 | two characters; the second is the low digit; the first is a space exactly when the byte is below 16 and the high digit otherwise |
| Conversion.HexPaddingCounterexample | BluenetLibIOS/util/Conversion.swift:51 | byte 10 formats as " A" as written and as "0A" when corrected |
| Conversion.Uint8ToHexString | BluenetLibIOS/util/Conversion.swift:50-56 | two hex digits whose value is the byte |
| Conversion.Uint8ArrayToHexString | BluenetLibIOS/util/Conversion.swift:40-46 | the concatenation of each byte's two digits, in order; all characters are hex |
| Conversion.HexStringToUint8Array | BluenetLibIOS/util/Conversion.swift:58-69 | traps exactly when some pair of characters is rejected by `UInt8(_, radix: 16)`; otherwise floor(n/2) bytes, byte k the value of characters 2k and 2k+1; a trailing odd character is dropped |
| Conversion.PairValue | BluenetLibIOS/util/Conversion.swift:64 | a pair is accepted exactly as two hex digits, a '+' and a digit, or "-0"; two digits give 16*high+low, '+' and a digit give the digit, "-0" gives 0 |
| Conversion.HexDigitsParse | BluenetLibIOS/util/Conversion.swift:58-69 | text made of hex digits never traps, and byte k is 16 times digit 2k plus digit 2k+1 |
| Conversion.SignedPairs | BluenetLibIOS/util/Conversion.swift:64 | "+A" parses to [10], "-0" to [0], and "-1" traps |
| Conversion.HexRoundTrip | BluenetLibIOS/util/Conversion.swift:40-69 | parsing the hex text of any byte array gives the array back |
| Conversion.StringToUint8Array | BluenetLibIOS/util/Conversion.swift:31-38 | one byte per character with the character's code; traps exactly when a code does not fit a byte |
| Conversion.StringBytesRoundTrip | BluenetLibIOS/util/Conversion.swift:31-38 | text read from bytes converts back to those bytes without trapping, and converted text reads back as itself |
| Conversion.Reverse | BluenetLibIOS/util/Conversion.swift:85-87 | same length; element i is input element n-1-i |
| Conversion.ReverseInvolution | BluenetLibIOS/util/Conversion.swift:85-87 | reversing twice gives the input back |
| Conversion.MacPrefixShape | BluenetLibIOS/util/Conversion.swift:71-83 | after i loop steps the text holds the last i bytes, reversed, each as the as-written formatter's two characters, separated by colons |
| Conversion.Uint8ArrayToMacAddress | BluenetLibIOS/util/Conversion.swift:71-83 | traps exactly on empty input (0...-1); otherwise 3n-1 characters, the bytes reversed, each as its high digit (a space below 16) and low digit, with n-1 colons |
| Conversion.UuidDigits | BluenetLibIOS/util/Conversion.swift:89-97 | the 32 characters of UUID text outside the four dash positions, in order |
| Conversion.StripUuid | BluenetLibIOS/util/Conversion.swift:92-93 | removing '-' and ':' from UUID text leaves exactly its 32 hex digits |
| Conversion.StripSeparators | BluenetLibIOS/util/Conversion.swift:92-93 | no '-' or ':' is left; every other input character is kept and nothing new appears; empty and one-character inputs are handled as expected |
| Conversion.StripSeparatorsAppend | BluenetLibIOS/util/Conversion.swift:92-93 | stripping distributes over concatenation |
| Conversion.StripSeparatorsClean | BluenetLibIOS/util/Conversion.swift:92-93 | text without separators is left unchanged |
| Conversion.IbeaconUuidStringToUint8Array | BluenetLibIOS/util/Conversion.swift:89-97 | text that is not a UUID gives no bytes; a UUID gives 16 bytes, byte k read from digits 2k and 2k+1 |
| Conversion.IbeaconUuidStringToReversedUint8Array | BluenetLibIOS/util/Conversion.swift:99-102 | reversing the result gives the forward bytes; 16 bytes for a UUID, none otherwise |
| ResultPacket.LoadV1AsWritten | BluenetLib/protocol/ResultPacket.swift:39-69 | short input is invalid; the header fields are read; traps exactly when the frame is exactly 4+length bytes; otherwise valid exactly when more than 4+length bytes are present, with a payload of length+1 bytes, and every other field, the result code included, as the corrected loader gives it |
| ResultPacket.LoadV1 | BluenetLib/protocol/ResultPacket.swift:39-69 | header fields as read; valid exactly when 4+length bytes are present; the payload is exactly those length bytes; with length >= 2 the result code is the first two payload bytes when known and unspecified otherwise; shorter or invalid packets keep it unspecified |
| ResultPacket.LoadV1RoundTrip | BluenetLib/protocol/ResultPacket.swift:39-69 | loading an encoded packet gives back its type, opcode, length and payload, and a known result code from its first two payload bytes |
| ResultPacket.LoadV1AsWrittenExtendsCorrected | BluenetLib/protocol/ResultPacket.swift:39-69 | where the loader as written does not trap, a valid result is the corrected one with the byte after the declared payload appended, and an invalid one equals the corrected one |
| ResultPacket.LoadV1AsWrittenOverrun | BluenetLib/protocol/ResultPacket.swift:50-52 | an exactly-sized frame traps as written; one trailing byte is swallowed into the payload |
| ResultPacket.LoadV2AsWritten | BluenetLib/protocol/ResultPacket.swift:86-116 | short input or an unknown command type or result code is invalid with defaults; traps exactly when both codes are known and the frame is exactly 6+size bytes; otherwise valid exactly when the corrected loader accepts and more than 6+size bytes are present, with a payload of size+1 bytes and the header fields the corrected loader reads |
| ResultPacket.LoadV2AsWrittenExtendsCorrected | BluenetLib/protocol/ResultPacket.swift:86-116 | where the loader as written does not trap, a valid result is the corrected one with the byte after the declared payload appended, and an invalid one equals the corrected one |
| ResultPacket.LoadV2 | BluenetLib/protocol/ResultPacket.swift:86-116 | valid exactly when the header is complete, both codes are known and 6+size bytes are present; then the fields are read and the payload is exactly size bytes |
| ResultPacket.LoadV2UnknownEnumKeepsDefaults | BluenetLib/protocol/ResultPacket.swift:90-96 | an unknown command type returns before any other field is set |
| ResultPacket.LoadV2RoundTrip | BluenetLib/protocol/ResultPacket.swift:86-116 | loading an encoded packet with known codes gives back its codes, size and payload |
| ResultPacket.LoadV2AsWrittenOverrun | BluenetLib/protocol/ResultPacket.swift:104-107 | every exactly-sized v2 frame traps as written |
| SwitchHistory.DecodeItem | BluenetLib/containerClasses/SwitchHistory.swift:22-25 | an 8-byte record is a u32 timestamp, u8 command, u8 state and u16 source, little-endian |
| SwitchHistory.EncodeItem | BluenetLib/containerClasses/SwitchHistory.swift:22-25 | 8 bytes that decode back to the item |
| SwitchHistory.ReadItems | BluenetLib/containerClasses/SwitchHistory.swift:21-31 | succeeds exactly when 8 bytes per declared item remain; then item i is decoded from offset 8i, in blob order; otherwise NotEnoughData |
| SwitchHistory.InitAsWritten | BluenetLib/containerClasses/SwitchHistory.swift:16-33 | traps exactly when the declared count is 0; an empty blob throws; otherwise reads the declared items |
| SwitchHistory.Init | BluenetLib/containerClasses/SwitchHistory.swift:16-33 | succeeds exactly when the blob has its count byte and 8 bytes per item; the list has the declared count, in blob order; agrees with the as-written version wherever that does not trap |
| SwitchHistory.EmptyHistoryTraps | BluenetLib/containerClasses/SwitchHistory.swift:21 | the blob [0] traps as written and is the empty list when corrected |
| SwitchHistory.RoundTrip | BluenetLib/containerClasses/SwitchHistory.swift:16-33 | decoding an encoded list of fewer than 256 items gives it back |
| StateHandler.GetErrors | BluenetLib/backend/serviceImplementations/StateHandler.swift:27-38 | the bitmask is bytes 4 to 7 little-endian; fewer than 8 bytes trap; an error is passed on |
| StateHandler.GetStateAsWritten | BluenetLib/backend/serviceImplementations/StateHandler.swift:67-98 | up to 3 bytes rejects IncorrectResponseLength; exactly 4 bytes traps (4...3); otherwise the bytes after the header are converted |
| StateHandler.GetState | BluenetLib/backend/serviceImplementations/StateHandler.swift:67-98 | the bytes after the 4-byte header are converted, the empty payload included; agrees with the as-written version wherever that does not trap |
| StateHandler.HeaderOnlyNotification | BluenetLib/backend/serviceImplementations/StateHandler.swift:80 | a bare 4-byte header traps as written and converts the empty payload when corrected |
| DebugHandler.ReadUInt64s | BluenetLib/backend/serviceImplementations/Debug.swift:50-64 | n little-endian u64 values, value i from offset 8i; NotEnoughData when fewer than 8n bytes remain |
| DebugHandler.DecodePayload | BluenetLib/backend/serviceImplementations/Debug.swift:42-64 | succeeds exactly when 105 bytes are present; the three u32, five u8 and eleven u64 fields come from their fixed offsets |
| DebugHandler.PayloadRoundTrip | BluenetLib/backend/serviceImplementations/Debug.swift:42-64 | decoding an encoded dump gives it back |
| DebugHandler.GetBehaviourDebugInformation | BluenetLib/backend/serviceImplementations/Debug.swift:25-75 | the answer is loaded as written, so it traps exactly when that loader does; an invalid v2 result packet rejects IncorrectResponseLength; a short payload rejects InvalidDataLength and never yields a partial dump; otherwise the decoded dump |
| DebugHandler.DecodeIgnoresTrailing | BluenetLib/backend/serviceImplementations/Debug.swift:42-64 | bytes after the 105 the reads consume do not change the decoded dump |
| DebugHandler.DebugAnswerOverrun | BluenetLib/backend/serviceImplementations/Debug.swift:33-34 | an answer of exactly its declared size traps; with one trailing byte the dump is decoded |
| DebugHandler.WriteControlPacketRoute | BluenetLib/backend/serviceImplementations/Debug.swift:83-90 | the setup writer exactly in setup mode |
| DebugHandler.ReadControlPacketRoute | BluenetLib/backend/serviceImplementations/Debug.swift:93-104 | the Crownstone service; ResultV2 exactly under control version 2, Control exactly under version 1 |
| ConfigHandler.SetUartState | BluenetLib/backend/serviceImplementations/ConfigHandler.swift:179-192 | accepted exactly for 0, 1 and 3, written as one byte; anything else rejects InvalidInput |
| ConfigHandler.SetMeshChannel | BluenetLib/backend/serviceImplementations/ConfigHandler.swift:194-207 | accepted exactly for 37, 38 and 39; anything else rejects InvalidInput |
| ConfigHandler.SetTxPower | BluenetLib/backend/serviceImplementations/ConfigHandler.swift:237-249 | accepted exactly for -40, -30, -20, -16, -12, -8, -4, 0 and 4, written as a signed byte; anything else rejects InvalidTxPowerValue |
| ConfigHandler.TxPowersFitInt8 | BluenetLib/backend/serviceImplementations/ConfigHandler.swift:237-249 | every accepted power survives the signed-byte conversion unchanged |
| ConfigHandler.SetPwmPeriod | BluenetLib/backend/serviceImplementations/ConfigHandler.swift:48-51 | a u32 write of the period, truncated modulo 2^32 |
| ConfigHandler.SetScanDuration | BluenetLib/backend/serviceImplementations/ConfigHandler.swift:63-66 | a u16 write of the duration, truncated modulo 2^16 |
| ConfigHandler.SetScanSendDelay | BluenetLib/backend/serviceImplementations/ConfigHandler.swift:68-71 | a u16 write of the delay, truncated modulo 2^16 |
| ConfigHandler.SetScanBreakDuration | BluenetLib/backend/serviceImplementations/ConfigHandler.swift:73-76 | a u16 write of the break duration, truncated modulo 2^16 |
| ConfigHandler.SetScanFilter | BluenetLib/backend/serviceImplementations/ConfigHandler.swift:78-81 | a one-byte write to the scan break duration configuration, as written |
| ConfigHandler.ScanFilterSharesBreakDurationSlot | BluenetLib/backend/serviceImplementations/ConfigHandler.swift:73-81 | the scan filter and the break duration write the same configuration type with different widths |
| ConfigHandler.SetScanFilterFraction | BluenetLib/backend/serviceImplementations/ConfigHandler.swift:83-86 | a u16 write of the fraction, truncated modulo 2^16 |
| ConfigHandler.SetZero | BluenetLib/backend/serviceImplementations/ConfigHandler.swift:137-158 | a u32 write of the signed zero offset in two's complement |
| ConfigHandler.SetTapToToggle | BluenetLib/backend/serviceImplementations/ConfigHandler.swift:223-230 | a state write of 1 exactly when enabled and 0 exactly when disabled |
| ConfigHandler.SetTapToToggleThreshold | BluenetLib/backend/serviceImplementations/ConfigHandler.swift:232-235 | a state write of the threshold as a byte, to the enable state type as written |
| ConfigHandler.ThresholdCollidesWithEnable | BluenetLib/backend/serviceImplementations/ConfigHandler.swift:223-235 | threshold 1 sends the same command as enabling and threshold 0 the same as disabling |
| ConfigHandler.WriteToConfigRoute | BluenetLib/backend/serviceImplementations/ConfigHandler.swift:251-289 | the setup service exactly in setup mode; a version-2 characteristic exactly under control version 2; one of the four endpoints |
| ConfigHandler.ConfigReadParameters | BluenetLib/backend/serviceImplementations/ConfigHandler.swift:327-345 | the setup service exactly in setup mode; a ResultV2 characteristic exactly under control version 2 |
| ConfigHandler.ReadAndWriteShareService | BluenetLib/backend/serviceImplementations/ConfigHandler.swift:251-345 | a configuration is read from the service it is written to |
| ConfigHandler.ConfigStateType | BluenetLib/backend/serviceImplementations/ConfigHandler.swift:292-294 | the force-unwrapped state type exists exactly for a known raw value |
| ConfigHandler.GetConfig | BluenetLib/backend/serviceImplementations/ConfigHandler.swift:296-324 | an invalid result packet rejects IncorrectResponseLength; otherwise the payload is converted |
| LegacyScanResponse.Parse | BluenetLib/containerClasses/Advertisements/ScanResponse.swift:52-72 | valid exactly for 17 bytes; the opcode is byte 0; opcodes 1, 2 and 4 use their own parser and every other opcode the opcode-3 dispatcher; other lengths change no field |
| LegacyScanResponse.Init | BluenetLib/containerClasses/Advertisements/ScanResponse.swift:47-50 | valid exactly for 17 bytes, default fields otherwise |
| LegacyScanResponse.Opcode3FramesAreType3 | BluenetLib/containerClasses/Advertisements/ScanResponse.swift:52-72 | an opcode-3 frame is always decoded by the type-3 parser, since byte 0 doubles as the data type |
| LegacyScanResponse.IsSetupPackage | BluenetLib/containerClasses/Advertisements/ScanResponse.swift:126-146 | only a valid packet with opcode 1, 2 or 4 can be setup; valid opcode 4 always is; valid opcodes 1 and 2 are setup exactly when id, switch state, power and energy are zero and the setup flag is set |
| LegacyScanResponse.SetupPackagesFromInit | BluenetLib/containerClasses/Advertisements/ScanResponse.swift:126-146 | only a 17-byte frame initialises to a setup package, and a 17-byte opcode-4 frame does whenever its parser keeps the opcode |
| LegacyScanResponse.EncryptedPart | BluenetLib/containerClasses/Advertisements/ScanResponse.swift:150-154 | the 16 bytes after byte 0 |
| LegacyScanResponse.Decrypt | BluenetLib/containerClasses/Advertisements/ScanResponse.swift:148-172 | no-op for invalid data or a failed decryption; otherwise byte 0 is kept, the output overwrites bytes from 1 on and the frame is parsed again; traps on an empty or over-long output |
| LegacyScanResponse.DecryptFullBlock | BluenetLib/containerClasses/Advertisements/ScanResponse.swift:148-172 | a 16-byte output gives the parse of byte 0 followed by that output |
| Opcode3.Parse | BluenetLib/containerClasses/Advertisements/AdvertisementPayloads/opCode3.swift:11-28 | nothing changes unless 17 bytes; the data type is byte 0; types 1 to 3 go to their parsers; any other type to the full type-0 parser |
| Opcode3Type0.PowerFactor | BluenetLib/containerClasses/Advertisements/AdvertisementPayloads/encryptedTypes/opCode3/opCode3_type0.swift:40-56 | never inside (-0.01, 0.01); raw 0 and 1 give 0.01, raw -1 gives -0.01, other values raw/127 |
| Opcode3Type0.Parse | BluenetLib/containerClasses/Advertisements/AdvertisementPayloads/encryptedTypes/opCode3/opCode3_type0.swift:11-79 | nothing changes unless 17 bytes; the partial timestamp is bytes 13-14 and is the unique identifier; a lite parse changes only those two |
| Opcode3Type0.Decode | BluenetLib/containerClasses/Advertisements/AdvertisementPayloads/encryptedTypes/opCode3/opCode3_type0.swift:23-77 | each field read from its fixed offset: flags from the bit array of byte 4, signed temperature, power and energy, timestamp by the time-set flag, validation byte 16 |
| Opcode3Type0.ExampleFrame | BluenetLib/containerClasses/Advertisements/AdvertisementPayloads/encryptedTypes/opCode3/opCode3_type0.swift:23-38 | a concrete frame decodes to id 5, switch state 1, temperature -12 and the expected flags |
| Opcode3Type0.EncodedOffsets | BluenetLib/containerClasses/Advertisements/AdvertisementPayloads/encryptedTypes/opCode3/opCode3_type0.swift:23-77 | each reading of an encoded frame sits at the offset the parser reads it from |
| Opcode3Type0.ParseEncoded | BluenetLib/containerClasses/Advertisements/AdvertisementPayloads/encryptedTypes/opCode3/opCode3_type0.swift:11-79 | parsing an encoded frame gives back its id, switch state, six flags, signed temperature, power factor, real power, energy, partial timestamp and validation byte |
| ServiceData.Init | Sources/BluenetLib/containerClasses/Advertisements/ScanResponse.swift:84-100 | valid exactly for 17 or 18 bytes; the encrypted part starts at 2 for 18 bytes and at 1 otherwise; the opcode is byte 0 of a valid frame and 0 otherwise |
| ServiceData.GetOperationMode | Sources/BluenetLib/containerClasses/Advertisements/ScanResponse.swift:103-127 | unknown for invalid frames; opcodes 2, 3, 5, 7 operation; 4, 6 setup; opcode 1 setup exactly when the setup bit is set and the id bytes are zero; never DFU |
| ServiceData.PublicDeviceType | Sources/BluenetLib/containerClasses/Advertisements/ScanResponse.swift:183-192 | only 18-byte frames change the type: byte 1 when known, undefined otherwise |
| ServiceData.Parse | Sources/BluenetLib/containerClasses/Advertisements/ScanResponse.swift:152-181 | nothing changes for an invalid frame; opcodes 1 to 4 take the type from the UUID and others from byte 1; opcodes 1 to 6 reach their parser and the rest the opcode-5 parser |
| ServiceData.ParsePublic | Sources/BluenetLib/containerClasses/Advertisements/ScanResponse.swift:129-143 | only the device type changes, to what a full parse would give |
| ServiceData.ParseWithoutDecrypting | Sources/BluenetLib/containerClasses/Advertisements/ScanResponse.swift:146-150 | a valid frame hands the 16 bytes after its public header to the parser |
| ServiceData.Decrypt | Sources/BluenetLib/containerClasses/Advertisements/ScanResponse.swift:290-304 | no-op on an invalid frame; ready for use exactly when decryption succeeded; the decrypted bytes reach the parser |
| ServiceData.DeviceTypeSource | Sources/BluenetLib/containerClasses/Advertisements/ScanResponse.swift:152-208 | for an 18-byte frame, opcodes 5 and up take the type from byte 1 and opcodes 1 to 4 from the UUID alone |
| Advertisement.ToMap | BluenetLib/containerClasses/Advertisements/Advertisement.swift:52-60 | every service-data entry is in the dictionary with its bytes, and nothing else is |
| Advertisement.FirstFamilyEntry | BluenetLib/containerClasses/Advertisements/Advertisement.swift:62-73 | the first entry keyed by a plug, builtin or guidestone UUID, or none exactly when there is no such entry |
| Advertisement.Init | BluenetLib/containerClasses/Advertisements/Advertisement.swift:34-74 | name defaults to ""; DFU mode exactly for the DFU UUID first; service data available exactly when non-empty; a packet and kind flag only for a family key; family exactly when the packet is valid; traps on an empty UUID list |
| Advertisement.KindFlagsExclusive | BluenetLib/containerClasses/Advertisements/Advertisement.swift:62-73 | at most one kind flag is set, and any set flag comes with a scan response |
| Advertisement.IsSetupPackage | BluenetLib/containerClasses/Advertisements/Advertisement.swift:173-178 | setup exactly when service data and a packet exist and the packet is setup |
| Advertisement.Decrypt | BluenetLib/containerClasses/Advertisements/Advertisement.swift:188-192 | no-op without a scan response; otherwise only the packet changes, by its own decrypt |
| AvailableDevice.Verify | BluenetLibIOS/containerClasses/AvailableDevice.swift:72-97 | no response: no change; setup: verified with the counter reset; own matching id: count up to 3, then verified; another's relayed state: no change; anything else: reset, unverified, adopt the id; the counter stays within 0..3 |
| AvailableDevice.Update | BluenetLibIOS/containerClasses/AvailableDevice.swift:59-68 | the device one verify step gives, stamped with the new time; the counter bound is kept |
| AvailableDevice.Init | BluenetLibIOS/containerClasses/AvailableDevice.swift:31-45 | traps exactly for a non-setup Crownstone without a scan response; otherwise a device with a bounded counter, stamped now, whose scan response has gone through one verify step; a setup Crownstone without a contradicting response is verified |
| AvailableDevice.TimeoutAfterUpdates | BluenetLibIOS/containerClasses/AvailableDevice.swift:47-66 | the timeout an update schedules fires after that update and after any verify, and after a later update exactly when its time is the same |
| AvailableDevice.ScheduledCheck | BluenetLibIOS/containerClasses/AvailableDevice.swift:47-52 | with the time captured at scheduling, cleanup fires exactly when the last update is that time |
| AvailableDevice.ScheduledCheckAsWritten | BluenetLibIOS/containerClasses/AvailableDevice.swift:66 | the closure compares the last update time with itself, so cleanup always fires |
| AvailableDevice.TimeoutNeverCancelled | BluenetLibIOS/containerClasses/AvailableDevice.swift:47-66 | after a later update at another time the as-written check still fires where the intended one does not |
| AvailableDevice.MatchesCount | BluenetLibIOS/containerClasses/AvailableDevice.swift:79-85 | n matching responses within the bound raise the counter by n and change nothing else |
| AvailableDevice.FourMatchesVerify | BluenetLibIOS/containerClasses/AvailableDevice.swift:72-97 | from a reset counter, three matches do not verify and the fourth does |
| AvailableDevice.MatchesKeepVerified | BluenetLibIOS/containerClasses/AvailableDevice.swift:72-97 | once verified, any run of matches keeps the device verified, bounded and with its id |
| BehaviourHasher.Sort | Sources/BluenetLib/utilModules/BehaviourHasher.swift:36-43 | a permutation of the behaviours |
| BehaviourHasher.SortAscending | Sources/BluenetLib/utilModules/BehaviourHasher.swift:36-43 | with every index present, the sorted list ascends by index |
| BehaviourHasher.HashInputAppend | Sources/BluenetLib/utilModules/BehaviourHasher.swift:48-54 | the hash input of a concatenation is the concatenation of the hash inputs |
| BehaviourHasher.HashInputOfIndexed | Sources/BluenetLib/utilModules/BehaviourHasher.swift:48-54 | behaviours without an index contribute nothing |
| BehaviourHasher.HashInputEmpty | Sources/BluenetLib/utilModules/BehaviourHasher.swift:48-60 | the hash input is empty exactly when no behaviour has an index |
| BehaviourHasher.BuildHashPacket | Sources/BluenetLib/utilModules/BehaviourHasher.swift:48-54 | the loop produces, in list order, [index, 0] followed by the padded packet of each indexed behaviour |
| BehaviourHasher.GetMasterHash | Sources/BluenetLib/utilModules/BehaviourHasher.swift:45-61 | 0 when no behaviour has an index, otherwise the checksum of the hash input |
| BehaviourHasher.ParseAll | Sources/BluenetLib/utilModules/BehaviourHasher.swift:20-25 | exactly the behaviours whose dictionaries parse are kept; failures are dropped; no input gives none and one input gives its parse or nothing |
| BehaviourHasher.ParseAllAppend | Sources/BluenetLib/utilModules/BehaviourHasher.swift:20-25 | parsing keeps input order: the parse of a concatenation is the concatenation of the parses |
| BehaviourHasher.FromDictionaries | Sources/BluenetLib/utilModules/BehaviourHasher.swift:17-28 | a permutation of the parsed behaviours: every parsed one present, nothing else |
| SetupHandler.VerifyResult | BluenetLibIOS/backend/serviceImplementations/SetupHandler.swift:170-187 | a match exactly when the lengths agree and every byte from index 4 on agrees |
| SetupHandler.WriteAndVerify | BluenetLibIOS/backend/serviceImplementations/SetupHandler.swift:134-158 | succeeds exactly when an attempt up to the last matches after only mismatches; three mismatches from 0 reject CannotWriteAndVerify; a failing step rejects with its error |
| SetupHandler.AtMostThreeAttempts | BluenetLibIOS/backend/serviceImplementations/SetupHandler.swift:150-156 | from iteration 0 the outcome depends on the first three attempts only |
| SetupHandler.WideByteHex | BluenetLibIOS/backend/serviceImplementations/SetupHandler.swift:30-33 | for the drawn bytes (at least 16) the as-written formatter gives the corrected digits |
| SetupHandler.RandomString | BluenetLibIOS/backend/serviceImplementations/SetupHandler.swift:30-33 | the random text is the hex of the four drawn bytes |
| SetupHandler.KeyBytes | BluenetLibIOS/backend/serviceImplementations/SetupHandler.swift:41-43 | the key text converts without trapping to 16 bytes: 8 hex characters then "90ABCDEF" |
| SetupHandler.MeshAccessAddressBytes | BluenetLibIOS/backend/serviceImplementations/SetupHandler.swift:94-97 | the mesh access address is the drawn bytes themselves |
| SetupHandler.UuidTextIsUuid | BluenetLibIOS/backend/serviceImplementations/SetupHandler.swift:45 | the random text followed by the fixed tail is well-formed UUID text |
| SetupHandler.IbeaconUuidBytes | BluenetLibIOS/backend/serviceImplementations/SetupHandler.swift:98-101 | 16 bytes whose first four are the drawn bytes |
| SetupHandler.DrawMaterial | BluenetLibIOS/backend/serviceImplementations/SetupHandler.swift:29-34 | the identifier decodes to random16; the mesh address is the drawn bytes; the UUID starts with them |
| SetupHandler.SetupWrites | BluenetLibIOS/backend/serviceImplementations/SetupHandler.swift:36-51 | the eight writes in order: id, admin, member and guest keys, mesh address, UUID, major, minor, with their payloads |
| SetupHandler.RunSteps | BluenetLibIOS/backend/serviceImplementations/SetupHandler.swift:35-51 | succeeds exactly when every step does; a failure is that of the first failing step |
| SetupHandler.SetupSteps | BluenetLibIOS/backend/serviceImplementations/SetupHandler.swift:35-51 | await ready, connect, then each write in order, then disconnect |
| SetupHandler.Setup | BluenetLibIOS/backend/serviceImplementations/SetupHandler.swift:28-53 | eleven steps, succeeding exactly when all do |
| SetupHandler.SetupNeverTraps | BluenetLibIOS/backend/serviceImplementations/SetupHandler.swift:28-53 | no conversion in setup can trap on what it draws |
| SetupHandler.SetupSucceededConnected | BluenetLibIOS/backend/serviceImplementations/SetupHandler.swift:35-51 | a successful setup was ready, connected and disconnected |
| SetupHandler.GetMacAddress | BluenetLibIOS/backend/serviceImplementations/SetupHandler.swift:58-76 | a read error is passed on; empty data traps; otherwise the bytes reversed as colon-separated pairs, a byte below 16 shown as a space and its digit |
| BleManager.Upper | BluenetLibIOS/BleMangager.swift:232 | same length, each letter uppercased, no lower-case letter left |
| BleManager.UpperIdempotent | BluenetLibIOS/BleMangager.swift:232 | uppercasing twice is uppercasing once |
| BleManager.Lookup | BluenetLibIOS/BleMangager.swift:231-239 | the first entry whose UUID equals the uppercased query, or none exactly when no entry matches |
| BleManager.LookupIgnoresQueryCase | BluenetLibIOS/BleMangager.swift:290-298 | a query finds the same entry as its uppercase form |
| BleManager.ConnectPlan | BluenetLibIOS/BleMangager.swift:90-118 | NotInitialized exactly unless powered on; disconnect first if connected, else abort first if connecting, then connect |
| BleManager.ConnectStartsIdle | BluenetLibIOS/BleMangager.swift:97-115 | with the corrected abort, after the preparatory step nothing is connected or connecting |
| BleManager.ConnectAsWrittenTraps | BluenetLibIOS/BleMangager.swift:97-147 | as written, connect traps exactly when a peripheral is connecting; otherwise it prepares the same state as the corrected version |
| BleManager.AbortConnectingAsWritten | BluenetLibIOS/BleMangager.swift:125-147 | traps exactly when a peripheral is connecting; otherwise fulfils at once |
| BleManager.AbortConnecting | BluenetLibIOS/BleMangager.swift:125-147 | nothing is connecting afterwards; a pending connect rejects ConnectionCancelled; the cancelled peripheral is the one that was connecting |
| BleManager.AbortConnectingTraps | BluenetLibIOS/BleMangager.swift:136-141 | every abort of a connecting peripheral traps as written |
| BleManager.StartDisconnect | BluenetLibIOS/BleMangager.swift:179-206 | with the corrected abort: fulfils at once exactly when nothing is connected; a connected peripheral is cancelled with a disconnect pending; only the connected and connecting peripherals are cancelled |
| BleManager.StartDisconnectAsWritten | BluenetLibIOS/BleMangager.swift:179-206 | traps exactly when a peripheral is connecting; otherwise the corrected result, cancelling only the connected peripheral |
| BleManager.DisconnectCompleted | BluenetLibIOS/BleMangager.swift:195-199 | a completed disconnect clears the connected peripheral only |
| BleManager.StartConnect | BluenetLibIOS/BleMangager.swift:153-173 | text that is not a UUID rejects InvalidUuid; an unknown UUID traps on index 0; otherwise the first known peripheral is connecting |
| BleManager.GetServicesFromDevice | BluenetLibIOS/BleMangager.swift:212-229 | NotConnected without a peripheral; cached services with no discovery; discovery otherwise |
| BleManager.ServicesOf | BluenetLibIOS/BleMangager.swift:212-229 | the cached services when present, else the discovered ones |
| BleManager.GetCharacteristic | BluenetLibIOS/BleMangager.swift:300-332 | NotConnected without a peripheral; a service error is passed on; ServiceDoesNotExist when no service has the uppercased id; for the found service a characteristic error is passed on, CharacteristicDoesNotExist when no characteristic has the uppercased id, and a found one otherwise; a result has the uppercased id |
| BleManager.CharacteristicsOf | BluenetLibIOS/BleMangager.swift:306-308 | a service's cached characteristics when present, else the discovered ones |
| BleManager.DisableNotificationsDecision | BluenetLibIOS/BleMangager.swift:397-421 | the callback is dropped and all others kept; the device is told to stop exactly when no other listener remains on the topic |
| BleManager.DidFailToConnectAsWritten | BluenetLibIOS/BleMangager.swift:484-493 | traps exactly for a nil error with a connect pending |
| BleManager.DidFailToConnect | BluenetLibIOS/BleMangager.swift:484-493 | rejects with the error, or ConnectionFailed for a pending connect without one |
| BleManager.DidFailToConnectCounterexample | BluenetLibIOS/BleMangager.swift:489-490 | a nil error with a connect pending traps as written and rejects ConnectionFailed when corrected |
| BleManager.DidDisconnect | BluenetLibIOS/BleMangager.swift:495-514 | cancel-pending fulfils; else an error rejects with it; else a pending disconnect fulfils; else Disconnected; never untouched |
| BleManager.Deliver | BluenetLibIOS/BleMangager.swift:475-603 | with the corrected failure handling: a connect answering CONNECT records the peripheral and fulfils; a successful write or notification-state change fulfils; an error rejects with it; discovery without results rejects NoServices or NoCharacteristics; a failed connect rejects with its error, or ConnectionFailed for a pending CONNECT; a disconnect follows DidDisconnect; any other callback leaves the slot untouched |
| BleManager.DeliverAsWritten | BluenetLibIOS/BleMangager.swift:475-603 | traps exactly for a failed connect without an error while a CONNECT is pending, and otherwise agrees with the corrected handling |
| BleManager.SlotResolvedOnlyByItsAnswer | BluenetLibIOS/BleMangager.swift:475-603 | with the corrected failure handling an event resolves the slot exactly when it answers the pending task type; as written the only exception is the trapping failed connect |
| BleManager.Notification | BluenetLibIOS/BleMangager.swift:560-568 | given the characteristic's own upper-case service and UUID text, a value is emitted exactly when some subscription listens on that topic and there is a value; it is emitted on that topic |
| BleManager.Subscribe | BluenetLibIOS/BleMangager.swift:376 | the new id listens on the topic and every other subscription is kept |
| BleManager.EnableNotificationsResult | BluenetLibIOS/BleMangager.swift:369-395 | fulfils with the subscription id exactly when the characteristic is found and notifying is enabled; a failure passes its error on and leaves the subscriptions as they were |
| BleManager.EnableNotificationsIntended | BluenetLibIOS/BleMangager.swift:369-395 | the corrected enable subscribes on the upper-cased ids, and fails exactly as the enable as written does |
| BleManager.NotificationsFollowSubscriptions | BluenetLibIOS/BleMangager.swift:369-421 | after the corrected enable the characteristic's values, named by its upper-case UUID text, are emitted for ids in any case; after the last listener is removed none is |
| BleManager.AsWrittenDeliveryNeedsUpperIds | BluenetLibIOS/BleMangager.swift:376 | as written a value is delivered exactly when the caller's topic equals the upper-cased one or someone already listens there; so ids without lower-case letters work |
| BleManager.LowerCaseIdsMissNotifications | BluenetLibIOS/BleMangager.swift:562-566 | subscribing as written on lower-case ids receives nothing; the corrected subscription receives the value |
| BleManager.EnableThenDisable | BluenetLibIOS/BleMangager.swift:369-421 | enabling on a topic nobody listens to and then disabling with the same id restores the subscriptions and stops the device |
| CBDelegate.DidConnect | Sources/BluenetLib/backend/Delegates/BluenetCBDelegate.swift:107-119 | fulfils only a connect task; the handle is connected, in connections and not pending; other handles unchanged |
| CBDelegate.DidFailToConnect | Sources/BluenetLib/backend/Delegates/BluenetCBDelegate.swift:121-137 | rejects a connect task with the error or ConnectionFailed; the handle leaves pending and connections; other handles unchanged |
| CBDelegate.DisconnectResolution | Sources/BluenetLib/backend/Delegates/BluenetCBDelegate.swift:145-177 | cancel, await and error disconnects fulfil; else an error rejects with it; a plain disconnect fulfils; anything else rejects Disconnected |
| CBDelegate.DisconnectAlwaysSettles | Sources/BluenetLib/backend/Delegates/BluenetCBDelegate.swift:145-177 | a disconnect never leaves the task untouched, and fulfils exactly the tasks expecting it |
| CBDelegate.DidDisconnect | Sources/BluenetLib/backend/Delegates/BluenetCBDelegate.swift:139-186 | the task is settled and the handle is gone from all three maps; other handles unchanged |
| CBDelegate.ConnectThenDisconnectForgets | Sources/BluenetLib/backend/Delegates/BluenetCBDelegate.swift:107-186 | connect then disconnect forgets the handle and leaves every other handle as it was |
| CBDelegate.StatusOf | Sources/BluenetLib/backend/Delegates/BluenetCBDelegate.swift:32-61 | a recognised payload names a state whose payload it is |
| CBDelegate.StatusRoundTrip | Sources/BluenetLib/backend/Delegates/BluenetCBDelegate.swift:32-61 | every state's payload reads back as that state |
| CBDelegate.DidUpdateState | Sources/BluenetLib/backend/Delegates/BluenetCBDelegate.swift:29-61 | a known state is stored and emitted by name; any other emits "unknown" and keeps the state; the flag is set; connections untouched |
| CBDelegate.DidUpdateStateLegacy | Sources/BluenetLib/backend/Delegates/BluenetCBDelegate.swift:64-80 | only raw values 3, 4 and 5 change the state; others emit "unknown" |
| CBDelegate.LegacyAgrees | Sources/BluenetLib/backend/Delegates/BluenetCBDelegate.swift:32-80 | the two code paths agree on the three states the older one knows |
| CBDelegate.DidDiscover | Sources/BluenetLib/backend/Delegates/BluenetCBDelegate.swift:88-103 | nothing is emitted exactly in battery-saving mode; otherwise the advertisement itself |

## Left out

- Time and promise machinery are left out: `delay`, `isReady` polling, timeouts, PromiseKit chaining,
  the promise container and the event bus. Pending work is a task type, outcomes are resolutions,
  and an emitted event is a value.
- Logging is left out, and so are `getJSON`, `getDictionary` and `stringify`.
- The packet generators, the `Convert` decoders, the encryption handler, `fletcher32`,
  `getPaddedPacket`, the behaviour dictionary parser and `reconstructTimestamp` are not part of this
  model. They are parameters.
- The opcode parsers for opcodes 1, 2, 4, 5 and 6 and for opcode-3 types 1 to 3 are not part of
  this model. They are parameters, and the model records which one is called with what.
- `DataStepper` is not part of this model. It is modelled as a little-endian cursor that throws
  `NotEnoughData`.
- The raw values of `ResultValue`, `ControlTypeV2`, `DeviceType`, `StateTypeV2` and the ConfigHandler
  configuration enums are not part of this model. They are parameters (sets of known codes).
- Config setters and getters that only pass a value through are not modelled separately: the
  iBeacon, dimmer, threshold, multiplier and other getters. `SetPwmPeriod` stands for each such
  width-truncating setter.
- `setSwitchcraft` is not modelled separately; it follows `SetTapToToggle`.
- `uint64_to_bit_array` is left out. The model keeps 64-bit masks as numbers.
- The `NSUUID` check is modelled as the 8-4-4-4-12 hexadecimal shape; `NSUUID` itself is not part of
  this model.
- `BleManager.Upper` uppercases ASCII letters only; Unicode case mapping is left out.
- `BleManager` is modelled only through `GetCharacteristic`, `Deliver` and `Notification` for
  `readCharacteristic` and `writeCharacteristic`; the GATT calls themselves are left out. The event
  bus is a map from subscription id to topic. `EnableNotificationsResult` takes the id the bus hands
  out as a parameter and requires it to be fresh, as the bus guarantees.
- The older manager's `startScanning`, its `didDiscover` and its own state update are left out. The
  newer delegate's versions are modelled.
- `BehaviourHasher.Sort` is an insertion sort. Where an index is missing the comparator is not a
  strict weak order, and the platform sort may produce any of several orders; the model picks one.
- `AvailableDevice.Init` takes the advertisement's crownstone and setup flags as parameters, because
  the advertisement class of that generation is not part of this model. RSSI averaging is left out.
- `finalizeSetup` and `factoryReset` appear only as the setup control endpoint. The random draws of
  `setup` are parameters bounded as `arc4random_uniform` bounds them.
- Float fields (power factor, power, apparent power, timestamps) are Dafny reals, so IEEE rounding
  is not modelled.
- Conversion.Uint8ArrayToHexString: uses the corrected formatter, because the as-written one pads
  with a space. For the bytes setup draws, which are all at least 16, the two formatters agree
  (`SetupHandler.WideByteHex`).
- Conversion.HexStringToUint8Array: pairs are formed from Unicode scalars. Swift counts grapheme
  clusters, so text with combining marks pairs differently there.
- Conversion.StringToUint8Array: takes one character per Unicode scalar. Swift takes the first
  scalar of each grapheme cluster and drops the rest, so text with combining marks gives fewer bytes.
- Advertisement.Init: the service-data dictionary is searched in entry order. Swift's `Dictionary`
  order is unspecified, so with several family keys the source may pick any of them.
- BleManager.StartDisconnect: uses the corrected `abortConnecting`. As written, a disconnect while a
  peripheral is connecting traps (`BleManager.StartDisconnectAsWritten`).
- BleManager.ConnectStartsIdle: is stated with the corrected `abortConnecting`. As written, connect
  traps while a peripheral is connecting (`BleManager.ConnectAsWrittenTraps`).
- BleManager.Deliver: uses the corrected `didFailToConnectPeripheral`. As written, a failed connect
  without an error while a CONNECT is pending traps (`BleManager.DeliverAsWritten`).
- BleManager.SlotResolvedOnlyByItsAnswer: its if-and-only-if is stated of the corrected handling. As
  written, the one exception is the trapping failed connect, and the lemma states that exception.
- BleManager.NotificationsFollowSubscriptions: is stated of the corrected subscription on the
  upper-cased ids. As written, delivery needs ids without lower-case letters
  (`BleManager.AsWrittenDeliveryNeedsUpperIds`).
- NaiveBayes, the classifier wrapper, LocationManager, the DFU handler, NearestItem, the constant
  tables and the build manifest are outside the modelled core.

## Findings

| source | as written | input that shows it | evidently intended | confidence | as-written member | corrected member |
|---|---|---|---|---|---|---|
| BluenetLib/protocol/ResultPacket.swift:50 | the payload loop runs over `4...4+length` inclusive | a frame of exactly 4+length bytes traps; one byte more is swallowed into the payload | the payload is the `length` bytes after the header | medium, not executed | ResultPacket.LoadV1AsWrittenOverrun | ResultPacket.LoadV1RoundTrip |
| BluenetLibIOS/BleMangager.swift:376 | the callback is subscribed on `serviceId + "_" + characteristicId` as the caller wrote them, while values are emitted on the characteristic's `UUIDString` text | the library's lower-case ids: enabling succeeds and no value ever reaches the callback | subscribe on the upper-cased ids, the text the emitter uses | high, not executed | BleManager.LowerCaseIdsMissNotifications | BleManager.NotificationsFollowSubscriptions |
| BluenetLib/protocol/ResultPacket.swift:105 | the payload loop runs over `6...6+size` inclusive | every exactly-sized v2 frame traps | the payload is the `size` bytes after the header | medium, not executed | ResultPacket.LoadV2AsWrittenOverrun | ResultPacket.LoadV2RoundTrip |
| BluenetLib/containerClasses/SwitchHistory.swift:21 | the items are read over `0...(count)-1` | the blob [0] forms `0...-1` and traps | an empty history is an empty list | high, not executed | SwitchHistory.EmptyHistoryTraps | SwitchHistory.RoundTrip |
| BluenetLib/backend/serviceImplementations/StateHandler.swift:80 | the payload is copied over `4...count-1` after a `count > 3` guard | a 4-byte notification forms `4...3` and traps | a bare header yields an empty payload | high, not executed | StateHandler.HeaderOnlyNotification | StateHandler.GetState |
| BluenetLibIOS/util/Conversion.swift:51 | `String(format:"%2X")` pads with a space, so the one-character branch never runs | byte 10 gives " A" | two hex digits with a leading zero | high, not executed | Conversion.HexPaddingCounterexample | Conversion.HexRoundTrip |
| BluenetLibIOS/BleMangager.swift:136-141 | `connectingPeripheral` is set to nil and then force-unwrapped | any abort while a peripheral is connecting traps | cancel the peripheral that was connecting | high, not executed | BleManager.AbortConnectingTraps | BleManager.AbortConnecting |
| BluenetLibIOS/BleMangager.swift:489-490 | a pending connect is rejected with `error!` | didFailToConnect with a nil error while a connect is pending traps | reject with ConnectionFailed, as the newer delegate does | medium, not executed | BleManager.DidFailToConnectCounterexample | BleManager.DidFailToConnect |
| BluenetLibIOS/containerClasses/AvailableDevice.swift:66 | the delayed check is `self.checkTimeout(self.lastUpdate)`, and the closure reads `lastUpdate` when it runs | an update at t followed by one at t' != t: the check scheduled at t still fires | compare with the update time captured when the check was scheduled, as `checkTimeout` describes | high, not executed | AvailableDevice.TimeoutNeverCancelled | AvailableDevice.TimeoutAfterUpdates |
