/** ConfigHandler: configuration setters and getters of a connected
    Crownstone.

    A setter yields the command it hands to the link: a configuration write
    (sent through `_writeToConfig`) or a control packet (sent through the
    generic control writer). The byte layout of these packets comes from
    packet generators that are not part of this model, so a command records
    the configuration type and the typed value it carries. NSNumber arguments
    are integers, and their uintN/intN accessors keep the low bits. */
module ConfigHandler {
  import opened Bytes
  import opened Wrappers
  import opened Errors
  import opened Gatt

  datatype ConfigType =
    | IbeaconUuid | IbeaconMajor | IbeaconMinor
    | DimmerTempUpVoltage | DimmerTempDownVoltage | CurrentConsumptionThresholdDimmer
    | PwmPeriod | ScanDuration | ScanSendDelay | ScanBreakDuration | ScanFilterFraction
    | SwitchcraftThreshold | MaxChipTemp
    | VoltageZero | CurrentZero | PowerZero | VoltageMultiplier | CurrentMultiplier
    | UartEnabled | MeshChannel | TxPower

  datatype ConfigValue = U8(u8: u8) | U16(u16: u16) | U32(u32: u32) | I8(i8: int) | Float(f: real) | Text(s: string)

  datatype ControlState = TapToToggleEnabled

  datatype Command =
    | ConfigWrite(config: ConfigType, value: ConfigValue)
    | ControlStateSet(state: ControlState, payload8: u8)

  /** n modulo `modulus` (a power of two), as NSNumber's unsigned accessors
      keep the low bits. */
  function Wrap(n: int, modulus: nat): (r: nat)
    requires modulus in {0x100, 0x1_0000, 0x1_0000_0000}
    ensures r < modulus
    ensures 0 <= n < modulus ==> r == n
    ensures -(modulus as int) <= n < 0 ==> r == n + modulus
  {
    n % modulus
  }

  /** The two's-complement value of the low byte of n, as int8Value gives it. */
  function Int8Value(n: int): (r: int)
    ensures -128 <= r < 128
    ensures -128 <= n < 128 ==> r == n
  {
    var low := n % 0x100;
    if low < 128 then low else low - 0x100
  }

  const UartStates: set<int> := {0, 1, 3}
  const MeshChannels: set<int> := {37, 38, 39}
  const TxPowers: set<int> := {-40, -30, -20, -16, -12, -8, -4, 0, 4}

  /** setUartState: only 0, 1 and 3 are accepted. */
  function SetUartState(state: int): (r: Result<Command, BluenetError>)
    ensures r.Ok? <==> state == 0 || state == 1 || state == 3
    ensures r.Ok? ==> r.value == ConfigWrite(UartEnabled, U8(state))
    ensures r.Err? ==> r.error == InvalidInput
  {
    if state in UartStates then Ok(ConfigWrite(UartEnabled, U8(state))) else Err(InvalidInput)
  }

  /** setMeshChannel: only the advertising channels 37, 38 and 39. */
  function SetMeshChannel(channel: int): (r: Result<Command, BluenetError>)
    ensures r.Ok? <==> 37 <= channel <= 39
    ensures r.Ok? ==> r.value == ConfigWrite(MeshChannel, U8(channel))
    ensures r.Err? ==> r.error == InvalidInput
  {
    if channel in MeshChannels then Ok(ConfigWrite(MeshChannel, U8(channel))) else Err(InvalidInput)
  }

  /** setTxPower: only the nine transmit powers the radio supports. */
  function SetTxPower(txPower: int): (r: Result<Command, BluenetError>)
    ensures r.Ok? <==> txPower in {-40, -30, -20, -16, -12, -8, -4, 0, 4}
    ensures r.Ok? ==> r.value == ConfigWrite(TxPower, I8(txPower))
    ensures r.Err? ==> r.error == InvalidTxPowerValue
  {
    if txPower in TxPowers then Ok(ConfigWrite(TxPower, I8(txPower))) else Err(InvalidTxPowerValue)
  }

  /** Accepted transmit powers all fit a signed byte, so int8Value keeps them. */
  lemma TxPowersFitInt8(txPower: int)
    requires SetTxPower(txPower).Ok?
    ensures Int8Value(txPower) == txPower
  {
  }

  function SetPwmPeriod(period: int): (r: Command)
    ensures r.ConfigWrite? && r.config == PwmPeriod && r.value.U32? && (period - r.value.u32) % 0x1_0000_0000 == 0
  {
    ConfigWrite(PwmPeriod, U32(Wrap(period, 0x1_0000_0000)))
  }

  function SetScanDuration(ms: int): (r: Command)
    ensures r.ConfigWrite? && r.config == ScanDuration && r.value.U16? && (ms - r.value.u16) % 0x1_0000 == 0
  {
    ConfigWrite(ScanDuration, U16(Wrap(ms, 0x1_0000)))
  }

  function SetScanSendDelay(delay: int): (r: Command)
    ensures r.ConfigWrite? && r.config == ScanSendDelay && r.value.U16? && (delay - r.value.u16) % 0x1_0000 == 0
  {
    ConfigWrite(ScanSendDelay, U16(Wrap(delay, 0x1_0000)))
  }

  function SetScanBreakDuration(duration: int): (r: Command)
    ensures r.ConfigWrite? && r.config == ScanBreakDuration && r.value.U16? && (duration - r.value.u16) % 0x1_0000 == 0
  {
    ConfigWrite(ScanBreakDuration, U16(Wrap(duration, 0x1_0000)))
  }

  /** setScanFilter writes a one-byte value to the scan-break-duration
      configuration. */
  function SetScanFilter(filter: int): (r: Command)
    ensures r.ConfigWrite? && r.config == ScanBreakDuration && r.value.U8? && (filter - r.value.u8) % 0x100 == 0
  {
    ConfigWrite(ScanBreakDuration, U8(Wrap(filter, 0x100)))
  }

  /** The scan filter and the scan break duration land in the same
      configuration slot, with payloads of different widths. */
  lemma ScanFilterSharesBreakDurationSlot(filter: int, duration: int)
    ensures SetScanFilter(filter).config == SetScanBreakDuration(duration).config
    ensures SetScanFilter(filter).value.U8? && SetScanBreakDuration(duration).value.U16?
  {
  }

  function SetScanFilterFraction(fraction: int): (r: Command)
    ensures r.ConfigWrite? && r.config == ScanFilterFraction && r.value.U16? && (fraction - r.value.u16) % 0x1_0000 == 0
  {
    ConfigWrite(ScanFilterFraction, U16(Wrap(fraction, 0x1_0000)))
  }

  /** The signed zero-offset setters send the 32-bit two's-complement pattern
      of their value. */
  function SetZero(config: ConfigType, value: int): (r: Command)
    requires config == VoltageZero || config == CurrentZero || config == PowerZero
    requires -0x8000_0000 <= value < 0x8000_0000
    ensures r.ConfigWrite? && r.config == config && r.value.U32?
    ensures value >= 0 ==> r.value.u32 == value
    ensures value < 0 ==> r.value.u32 == value + 0x1_0000_0000
  {
    ConfigWrite(config, U32(Wrap(value, 0x1_0000_0000)))
  }

  /** setTapToToggle: a control state-set packet with payload 1 or 0. */
  function SetTapToToggle(enabled: bool): (r: Command)
    ensures r.ControlStateSet? && r.state == TapToToggleEnabled
    ensures r.payload8 == 1 <==> enabled
    ensures r.payload8 == 0 <==> !enabled
  {
    ControlStateSet(TapToToggleEnabled, if enabled then 1 else 0)
  }

  /** setTapToToggleThreshold: the threshold's byte pattern, sent with the
      tap-to-toggle-enabled state type. */
  function SetTapToToggleThreshold(threshold: int): (r: Command)
    requires -128 <= threshold < 128
    ensures r.ControlStateSet? && r.state == TapToToggleEnabled
    ensures threshold >= 0 ==> r.payload8 == threshold
    ensures threshold < 0 ==> r.payload8 == threshold + 256
  {
    ControlStateSet(TapToToggleEnabled, Wrap(threshold, 0x100))
  }

  /** A threshold of 0 or 1 is indistinguishable on the wire from disabling
      or enabling tap-to-toggle. */
  lemma ThresholdCollidesWithEnable()
    ensures SetTapToToggleThreshold(1) == SetTapToToggle(true)
    ensures SetTapToToggleThreshold(0) == SetTapToToggle(false)
  {
  }

  /** _writeToConfig: the setup service in setup mode, the Crownstone service
      otherwise; within each, the v2 control characteristic for protocol v2. */
  function WriteToConfigRoute(state: ConnectionState): (e: Endpoint)
    ensures e.service == SetupService <==> state.operationMode == Setup
    ensures e.characteristic in {SetupControlV3, ControlV2} <==> state.controlVersion == V2
    ensures e in {Endpoint(SetupService, SetupControlV3), Endpoint(SetupService, SetupConfigControl),
                  Endpoint(CrownstoneService, ControlV2), Endpoint(CrownstoneService, ConfigControl)}
  {
    match (state.operationMode, state.controlVersion)
    case (Setup, V2) => Endpoint(SetupService, SetupControlV3)
    case (Setup, V1) => Endpoint(SetupService, SetupConfigControl)
    case (_, V2) => Endpoint(CrownstoneService, ControlV2)
    case (_, V1) => Endpoint(CrownstoneService, ConfigControl)
  }

  /** _getConfigReadParameters: the read side of the same choice. */
  function ConfigReadParameters(state: ConnectionState): (e: Endpoint)
    ensures e.service == SetupService <==> state.operationMode == Setup
    ensures e.characteristic in {SetupResultV2, ResultV2} <==> state.controlVersion == V2
    ensures e in {Endpoint(SetupService, SetupResultV2), Endpoint(SetupService, SetupConfigRead),
                  Endpoint(CrownstoneService, ResultV2), Endpoint(CrownstoneService, ConfigRead)}
  {
    var characteristic := if state.controlVersion == V2 then ResultV2 else ConfigRead;
    if state.operationMode == Setup then
      Endpoint(SetupService, if state.controlVersion == V2 then SetupResultV2 else SetupConfigRead)
    else
      Endpoint(CrownstoneService, characteristic)
  }

  /** A configuration read listens on the service it writes its request to. */
  lemma ReadAndWriteShareService(state: ConnectionState)
    ensures ConfigReadParameters(state).service == WriteToConfigRoute(state).service
  {
  }

  /** The fields of the loaded return packet that _getConfig looks at. */
  datatype ReturnPacket = ReturnPacket(valid: bool, payload: seq<u8>)

  /** _getConfig(ConfigurationType): the configuration's raw value must also
      be a StateTypeV2 raw value; the force-unwrap traps otherwise. */
  function ConfigStateType(configRaw: u16, stateTypes: set<u16>): (r: Outcome<u16>)
    ensures r.Done? <==> configRaw in stateTypes
    ensures r.Done? ==> r.value == configRaw
  {
    if configRaw in stateTypes then Done(configRaw) else Trapped
  }

  /** _getConfig(StateTypeV2), from the notification's outcome: a notification
      error is passed on, an invalid return packet is an incorrect response
      length, and otherwise the payload is converted. */
  function GetConfig<T>(notification: Result<seq<u8>, BluenetError>, load: seq<u8> -> ReturnPacket,
                        convert: seq<u8> -> Result<T, BluenetError>): (r: Result<T, BluenetError>)
    ensures notification.Err? ==> r == Err(notification.error)
    ensures notification.Ok? && !load(notification.value).valid ==> r == Err(IncorrectResponseLength)
    ensures notification.Ok? && load(notification.value).valid ==> r == convert(load(notification.value).payload)
  {
    var data :- notification;
    var packet := load(data);
    if !packet.valid then Err(IncorrectResponseLength) else convert(packet.payload)
  }
}
