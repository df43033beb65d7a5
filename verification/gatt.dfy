/** GATT services and characteristics the modelled code addresses, and the
    per-connection mode and protocol version that select among them. The UUID
    strings themselves are left out; only their identity matters here. */
module Gatt {

  datatype Service = CrownstoneService | SetupService

  datatype Characteristic =
    | Control
    | ConfigControl
    | ConfigRead
    | StateControl
    | StateRead
    | ControlV2
    | ResultV2
    | SetupControlV3
    | SetupConfigControl
    | SetupConfigRead
    | SetupResultV2
    | SetupMacAddress

  /** Which mode the connected Crownstone is in. */
  datatype OperationMode = Operation | Setup | Dfu

  /** Which control protocol the connected Crownstone speaks. */
  datatype ControlVersion = V1 | V2

  datatype ConnectionState = ConnectionState(operationMode: OperationMode, controlVersion: ControlVersion)

  /** A characteristic together with the service that holds it. */
  datatype Endpoint = Endpoint(service: Service, characteristic: Characteristic)
}

/** Service UUIDs found in advertisements: the three Crownstone-family
    service-data UUIDs, the DFU service, and any other UUID by its text. */
module AdvertisedUuids {

  datatype ServiceUuid =
    | PlugAdvertisementUuid
    | BuiltinAdvertisementUuid
    | GuidestoneAdvertisementUuid
    | DfuServiceUuid
    | OtherUuid(text: string)

  predicate IsCrownstoneFamily(id: ServiceUuid) {
    id == PlugAdvertisementUuid || id == BuiltinAdvertisementUuid || id == GuidestoneAdvertisementUuid
  }
}
