/** StateHandler: reading Crownstone state through the state characteristics.

    Every read writes a request to the state-control characteristic (with
    response) and waits for one notification on the state-read
    characteristic. The request packets (NotificationStatePacket), the
    CrownstoneErrors decoder of the error bitmask and the generic Convert are
    not part of this model: the bitmask is returned as a number and Convert is
    a parameter. */
module StateHandler {
  import opened Bytes
  import opened Wrappers
  import opened Errors
  import opened Gatt
  import Conversion

  /** getErrors: bytes 4-7 of the notification are the little-endian error
      bitmask; a notification shorter than 8 bytes traps on the index. */
  function GetErrors(notification: Result<seq<u8>, BluenetError>): (r: Outcome<Result<u32, BluenetError>>)
    ensures notification.Err? ==> r == Done(Err(notification.error))
    ensures notification.Ok? ==> (r.Trapped? <==> |notification.value| < 8)
    ensures r.Done? && r.value.Ok? ==>
              Conversion.Uint32ToBytes(r.value.value) == notification.value[4..8]
  {
    match notification
    case Err(e) => Done(Err(e))
    case Ok(data) =>
      if |data| < 8 then Trapped
      else
        Conversion.BytesRoundTrip(data[4..]);
        Done(Ok(Conversion.BytesToUint32(data[4..8])))
  }

  /** _getState as written: a notification of 3 bytes or fewer is an
      incorrect response length; otherwise bytes 4 onwards are converted. The
      copy loop runs over 4...count-1, which traps for a 4-byte notification. */
  function GetStateAsWritten<T>(notification: Result<seq<u8>, BluenetError>,
                                convert: seq<u8> -> Result<T, BluenetError>): (r: Outcome<Result<T, BluenetError>>)
    ensures notification.Err? ==> r == Done(Err(notification.error))
    ensures notification.Ok? && |notification.value| <= 3 ==> r == Done(Err(IncorrectResponseLength))
    ensures notification.Ok? ==> (r.Trapped? <==> |notification.value| == 4)
    ensures notification.Ok? && |notification.value| > 4 ==> r == Done(convert(notification.value[4..]))
  {
    match notification
    case Err(e) => Done(Err(e))
    case Ok(data) =>
      if |data| <= 3 then Done(Err(IncorrectResponseLength))
      else if |data| == 4 then Trapped
      else Done(convert(data[4..]))
  }

  /** _getState with a 4-byte notification read as an empty state value. */
  function GetState<T>(notification: Result<seq<u8>, BluenetError>,
                       convert: seq<u8> -> Result<T, BluenetError>): (r: Result<T, BluenetError>)
    ensures notification.Err? ==> r == Err(notification.error)
    ensures notification.Ok? && |notification.value| <= 3 ==> r == Err(IncorrectResponseLength)
    ensures notification.Ok? && |notification.value| >= 4 ==> r == convert(notification.value[4..])
    ensures GetStateAsWritten(notification, convert).Done? ==> GetStateAsWritten(notification, convert) == Done(r)
  {
    match notification
    case Err(e) => Err(e)
    case Ok(data) =>
      if |data| <= 3 then Err(IncorrectResponseLength)
      else convert(data[4..])
  }

  /** A notification that is only the 4-byte header, with no state value,
      traps the as-written handler and reaches Convert with no bytes in the
      corrected one. */
  lemma HeaderOnlyNotification(header: seq<u8>, convert: seq<u8> -> Result<int, BluenetError>)
    requires |header| == 4
    ensures GetStateAsWritten(Ok(header), convert) == Trapped
    ensures GetState(Ok(header), convert) == convert([])
  {
  }
}
