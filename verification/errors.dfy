/** The error values the modelled code rejects with (a subset of the library's
    BluenetError and BleError enums), plus errors the platform stack reports. */
module Errors {

  datatype BluenetError =
    | Disconnected
    | ConnectionCancelled
    | ConnectionFailed
    | NotConnected
    | NoServices
    | NoCharacteristics
    | ServiceDoesNotExist
    | CharacteristicDoesNotExist
    | InvalidUuid
    | NotInitialized
    | CancelPendingConnectionTimeout
    | ConnectTimeout
    | DisconnectTimeout
    | CannotWriteAndVerify
    | IncorrectResponseLength
    | InvalidDataLength
    | InvalidInput
    | InvalidTxPowerValue
      /** Thrown by the byte reader when fewer bytes remain than a read needs. */
    | NotEnoughData
      /** An error object handed over by the platform BLE stack, passed on as is. */
    | Native(code: int)
}
