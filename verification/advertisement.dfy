/** The advertisement wrapper (Advertisement in BluenetLib/): name, DFU mode,
    service data and the Crownstone packet built from it.

    CoreBluetooth hands the service data over as a dictionary; it is modelled
    as its entries in iteration order, with distinct keys. An argument that
    does not have the expected dictionary or list type is None. */
module Advertisement {
  import opened Bytes
  import opened Wrappers
  import opened AdvertisedUuids
  import opened LegacyPacket
  import LegacyScanResponse

  type Entry = (ServiceUuid, seq<u8>)

  datatype Advertisement = Advertisement(
    handle: string,
    name: string,
    rssi: int,
    referenceId: string,
    isCrownstoneFamily: bool,
    isCrownstonePlug: bool,
    isCrownstoneBuiltin: bool,
    isGuidestone: bool,
    isInDFUMode: bool,
    serviceData: map<ServiceUuid, seq<u8>>,
    serviceDataAvailable: bool,
    serviceUuid: Option<ServiceUuid>,
    scanResponse: Option<LegacyScanResponse.Packet>)

  predicate DistinctKeys(entries: seq<Entry>) {
    forall i, j :: 0 <= i < j < |entries| ==> entries[i].0 != entries[j].0
  }

  predicate WellFormed(a: Advertisement) {
    a.scanResponse.Some? ==> LegacyScanResponse.WellFormed(a.scanResponse.value)
  }

  /** The dictionary the entries are copied into. */
  function ToMap(entries: seq<Entry>): (r: map<ServiceUuid, seq<u8>>)
    requires DistinctKeys(entries)
    ensures forall i :: 0 <= i < |entries| ==> entries[i].0 in r && r[entries[i].0] == entries[i].1
    ensures forall k :: k in r ==> exists i :: 0 <= i < |entries| && entries[i].0 == k
  {
    if |entries| == 0 then map[]
    else
      var last := entries[|entries| - 1];
      ToMap(entries[..|entries| - 1])[last.0 := last.1]
  }

  /** Index of the first entry whose key is one of the three Crownstone
      advertisement service UUIDs. */
  function FirstFamilyEntry(entries: seq<Entry>): (r: Option<nat>)
    ensures r.Some? ==> r.value < |entries| && IsCrownstoneFamily(entries[r.value].0)
    ensures r.Some? ==> forall j :: 0 <= j < r.value ==> !IsCrownstoneFamily(entries[j].0)
    ensures r.None? <==> forall j :: 0 <= j < |entries| ==> !IsCrownstoneFamily(entries[j].0)
  {
    if |entries| == 0 then None
    else if IsCrownstoneFamily(entries[0].0) then Some(0)
    else match FirstFamilyEntry(entries[1..])
      case None => None
      case Some(k) => Some(k + 1)
  }

  /** The fields init sets before looking for a Crownstone packet. */
  function Base(handle: string, name: Option<string>, rssi: int, entries: seq<Entry>,
                serviceUuids: Option<seq<ServiceUuid>>, referenceId: string): (a: Advertisement)
    requires DistinctKeys(entries) && serviceUuids != Some([])
    ensures a.handle == handle && a.rssi == rssi && a.referenceId == referenceId && a.name == name.GetOr("")
    ensures a.isInDFUMode <==> serviceUuids.Some? && serviceUuids.value[0] == DfuServiceUuid
    ensures a.serviceDataAvailable <==> |entries| > 0
    ensures |entries| > 0 ==> a.serviceUuid == Some(entries[|entries| - 1].0)
    ensures |entries| == 0 && serviceUuids.Some? ==> a.serviceUuid == Some(serviceUuids.value[0])
    ensures |entries| == 0 && serviceUuids.None? ==> a.serviceUuid == None
    ensures forall i :: 0 <= i < |entries| ==> entries[i].0 in a.serviceData && a.serviceData[entries[i].0] == entries[i].1
    ensures forall k :: k in a.serviceData ==> exists i :: 0 <= i < |entries| && entries[i].0 == k
    ensures a.scanResponse.None? && !a.isCrownstoneFamily && !a.isCrownstonePlug
    ensures !a.isCrownstoneBuiltin && !a.isGuidestone
  {
    var fromList := if serviceUuids.Some? then Some(serviceUuids.value[0]) else None;
    Advertisement(
      handle, name.GetOr(""), rssi, referenceId, false, false, false, false,
      serviceUuids.Some? && serviceUuids.value[0] == DfuServiceUuid,
      ToMap(entries), |entries| > 0,
      if |entries| > 0 then Some(entries[|entries| - 1].0) else fromList,
      None)
  }

  /** init(handle:name:rssi:serviceData:serviceUUID:referenceId:). A service
      UUID list is assumed to hold exactly one UUID: an empty one traps. Each
      service-data entry is stored and becomes the service UUID, so the last
      one wins. The first Crownstone-family entry is parsed into the scan
      response and sets the family and kind flags. */
  function Init(handle: string, name: Option<string>, rssi: int,
                serviceData: Option<seq<Entry>>, serviceUuids: Option<seq<ServiceUuid>>,
                referenceId: string, ctx: ParseContext): (r: Outcome<Advertisement>)
    requires serviceData.Some? ==> DistinctKeys(serviceData.value)
    ensures r.Trapped? <==> serviceUuids == Some([])
    ensures r.Done? ==>
              var a := r.value;
              var entries := if serviceData.Some? then serviceData.value else [];
              && WellFormed(a)
              && a.handle == handle && a.rssi == rssi && a.referenceId == referenceId
              && a.name == name.GetOr("")
              && (a.isInDFUMode <==> serviceUuids.Some? && serviceUuids.value[0] == DfuServiceUuid)
              && (a.serviceDataAvailable <==> |entries| > 0)
              && (|entries| > 0 ==> a.serviceUuid == Some(entries[|entries| - 1].0))
              && (|entries| == 0 && serviceUuids.Some? ==> a.serviceUuid == Some(serviceUuids.value[0]))
              && (|entries| == 0 && serviceUuids.None? ==> a.serviceUuid == None)
              && (forall i :: 0 <= i < |entries| ==> entries[i].0 in a.serviceData && a.serviceData[entries[i].0] == entries[i].1)
              && (forall k :: k in a.serviceData ==> exists i :: 0 <= i < |entries| && entries[i].0 == k)
    ensures r.Done? ==>
              var a := r.value;
              var entries := if serviceData.Some? then serviceData.value else [];
              match FirstFamilyEntry(entries)
              case None =>
                a.scanResponse.None? && !a.isCrownstoneFamily && !a.isCrownstonePlug
                && !a.isCrownstoneBuiltin && !a.isGuidestone
              case Some(k) =>
                && a.scanResponse == Some(LegacyScanResponse.Init(entries[k].1, ctx))
                && (a.isCrownstoneFamily <==> |entries[k].1| == 17)
                && (a.isCrownstonePlug <==> entries[k].0 == PlugAdvertisementUuid)
                && (a.isCrownstoneBuiltin <==> entries[k].0 == BuiltinAdvertisementUuid)
                && (a.isGuidestone <==> entries[k].0 == GuidestoneAdvertisementUuid)
  {
    if serviceUuids == Some([]) then Trapped
    else
      var entries := if serviceData.Some? then serviceData.value else [];
      var base := Base(handle, name, rssi, entries, serviceUuids, referenceId);
      match FirstFamilyEntry(entries)
      case None => Done(base)
      case Some(k) =>
        var id := entries[k].0;
        var packet := LegacyScanResponse.Init(entries[k].1, ctx);
        Done(base.(
          scanResponse := Some(packet),
          isCrownstoneFamily := LegacyScanResponse.HasCrownstoneDataFormat(packet),
          isCrownstonePlug := id == PlugAdvertisementUuid,
          isCrownstoneBuiltin := id == BuiltinAdvertisementUuid,
          isGuidestone := id == GuidestoneAdvertisementUuid))
  }

  /** At most one of the three kind flags is set, and any of them implies a
      scan response was built. */
  lemma KindFlagsExclusive(handle: string, name: Option<string>, rssi: int,
                           serviceData: Option<seq<Entry>>, serviceUuids: Option<seq<ServiceUuid>>,
                           referenceId: string, ctx: ParseContext)
    requires serviceData.Some? ==> DistinctKeys(serviceData.value)
    requires Init(handle, name, rssi, serviceData, serviceUuids, referenceId, ctx).Done?
    ensures var a := Init(handle, name, rssi, serviceData, serviceUuids, referenceId, ctx).value;
            && !(a.isCrownstonePlug && a.isCrownstoneBuiltin) && !(a.isCrownstonePlug && a.isGuidestone)
            && !(a.isCrownstoneBuiltin && a.isGuidestone)
            && (a.isCrownstonePlug || a.isCrownstoneBuiltin || a.isGuidestone || a.isCrownstoneFamily ==> a.scanResponse.Some?)
  {
    var entries := if serviceData.Some? then serviceData.value else [];
    match FirstFamilyEntry(entries)
    case None =>
    case Some(k) =>
  }

  /** isSetupPackage(). */
  function IsSetupPackage(a: Advertisement): (r: bool)
    ensures r <==> a.serviceDataAvailable && a.scanResponse.Some?
                   && LegacyScanResponse.IsSetupPackage(a.scanResponse.value)
    ensures r ==> a.scanResponse.value.validData
  {
    a.serviceDataAvailable && a.scanResponse.Some? && LegacyScanResponse.IsSetupPackage(a.scanResponse.value)
  }

  /** hasScanResponse(). */
  predicate HasScanResponse(a: Advertisement) {
    a.serviceDataAvailable && a.scanResponse.Some?
  }

  /** isDFUPackage(). */
  predicate IsDfuPackage(a: Advertisement) {
    a.isInDFUMode
  }

  /** decrypt(key): forwarded to the scan response when there is one and
      service data was seen; nothing but the scan response can change. */
  function Decrypt(a: Advertisement, decrypted: Option<seq<u8>>, ctx: ParseContext): (r: Outcome<Advertisement>)
    requires WellFormed(a)
    ensures !HasScanResponse(a) ==> r == Done(a)
    ensures HasScanResponse(a) ==>
              match LegacyScanResponse.Decrypt(a.scanResponse.value, decrypted, ctx)
              case Trapped => r.Trapped?
              case Done(p) => r == Done(a.(scanResponse := Some(p)))
    ensures r.Done? ==> WellFormed(r.value) && r.value == a.(scanResponse := r.value.scanResponse)
  {
    if HasScanResponse(a) then
      match LegacyScanResponse.Decrypt(a.scanResponse.value, decrypted, ctx)
      case Trapped => Trapped
      case Done(p) => Done(a.(scanResponse := Some(p)))
    else Done(a)
  }
}
