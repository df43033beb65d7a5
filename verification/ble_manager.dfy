/** BleManager of the older library generation: one connected peripheral, one
    peripheral being connected to, and a single pending-promise slot that the
    CoreBluetooth delegate callbacks resolve. Each public operation is modelled
    as the decision it takes synchronously: an immediate answer, or a new state
    with the slot armed for the delegate callback that will answer it.

    CoreBluetooth, the promise container, its timeouts and the event bus are not
    part of this model. The promise container's kind is a field of the state,
    and resolving the slot is reported as a Resolution next to the new state. */
module BleManager {
  import opened Bytes
  import opened Wrappers
  import opened Errors
  import Conversion

  /** The central manager's power state. */
  datatype BleState = Unknown | Resetting | Unsupported | Unauthorized | PoweredOff | PoweredOn

  datatype Characteristic = Characteristic(uuid: string)

  /** A service; its characteristics are absent until they have been discovered. */
  datatype Service = Service(uuid: string, characteristics: Option<seq<Characteristic>>)

  /** A peripheral; its services are absent until they have been discovered. */
  datatype Peripheral = Peripheral(identifier: string, services: Option<seq<Service>>)

  /** The kind of promise waiting in the slot. Idle stands for the container
      created at start-up, before any operation armed it. */
  datatype PromiseType =
    | Idle
    | Connect
    | CancelPendingConnection
    | Disconnect
    | GetServices
    | GetCharacteristics
    | ReadCharacteristic
    | WriteCharacteristic
    | EnableNotifications
    | DisableNotifications

  datatype Manager = Manager(
    bleState: BleState,
    connected: Option<Peripheral>,
    connecting: Option<Peripheral>,
    pending: PromiseType)

  /** What an answer from the platform carries when the slot is fulfilled. */
  datatype Value = Nothing | Services(services: seq<Service>) | Characteristics(characteristics: seq<Characteristic>) | Read(characteristic: Characteristic)

  /** What happened to a promise. */
  datatype Resolution = Untouched | Fulfilled(value: Value) | Rejected(error: BluenetError)

  // ---------------------------------------------------------------- UUID text

  function UpperChar(c: char): (u: char)
    ensures 'a' <= c <= 'z' ==> 'A' <= u <= 'Z' && u as int - c as int == 'A' as int - 'a' as int
    ensures !('a' <= c <= 'z') ==> u == c
  {
    if 'a' <= c <= 'z' then (c as int - 'a' as int + 'A' as int) as char else c
  }

  /** uppercaseString, on ASCII letters. */
  function Upper(s: string): (u: string)
    ensures |u| == |s|
    ensures forall i :: 0 <= i < |s| ==> u[i] == UpperChar(s[i])
    ensures forall i :: 0 <= i < |s| ==> !('a' <= u[i] <= 'z')
  {
    seq(|s|, i requires 0 <= i < |s| => UpperChar(s[i]))
  }

  lemma UpperIdempotent(s: string)
    ensures Upper(Upper(s)) == Upper(s)
  {
    assert forall i :: 0 <= i < |s| ==> UpperChar(Upper(s)[i]) == Upper(s)[i];
  }

  // ---------------------------------------------------------------- lookups

  /** The first entry whose UUID text equals the upper-cased query, or None.
      _getServiceFromList and getCharacteristicFromList are this search. */
  function Lookup<T>(list: seq<T>, uuidOf: T -> string, query: string): (r: Option<T>)
    ensures r.None? <==> forall i :: 0 <= i < |list| ==> uuidOf(list[i]) != Upper(query)
    ensures r.Some? ==>
      exists i :: (0 <= i < |list| && list[i] == r.value && uuidOf(list[i]) == Upper(query) &&
                   forall j :: 0 <= j < i ==> uuidOf(list[j]) != Upper(query))
    decreases |list|
  {
    if |list| == 0 then None
    else if uuidOf(list[0]) == Upper(query) then Some(list[0])
    else
      var r := Lookup(list[1..], uuidOf, query);
      assert forall i :: 1 <= i < |list| ==> list[i] == list[1..][i - 1];
      r
  }

  function ServiceUuid(s: Service): string { s.uuid }

  function CharacteristicUuid(c: Characteristic): string { c.uuid }

  /** Asking for an id in lower case finds the same entry as asking in upper case. */
  lemma LookupIgnoresQueryCase<T>(list: seq<T>, uuidOf: T -> string, query: string)
    ensures Lookup(list, uuidOf, query) == Lookup(list, uuidOf, Upper(query))
  {
    UpperIdempotent(query);
  }

  // ---------------------------------------------------------------- connect

  /** The steps connect(uuid) chains once the BLE stack is powered on. */
  datatype Step = DisconnectFirst | AbortFirst | ConnectTo(uuid: string)

  /** connect(uuid): reject NOT_INITIALIZED unless powered on; otherwise end a
      connection or a connection attempt first, then connect. */
  function ConnectPlan(m: Manager, uuid: string): (r: Result<seq<Step>, BluenetError>)
    ensures r.Err? <==> m.bleState != PoweredOn
    ensures r.Err? ==> r.error == NotInitialized
    ensures r.Ok? ==> 1 <= |r.value| <= 2 && r.value[|r.value| - 1] == ConnectTo(uuid)
    ensures r.Ok? ==> (r.value[0] == DisconnectFirst <==> m.connected.Some?)
    ensures r.Ok? ==> (r.value[0] == AbortFirst <==> m.connected.None? && m.connecting.Some?)
    ensures r.Ok? ==> (|r.value| == 1 <==> m.connected.None? && m.connecting.None?)
  {
    if m.bleState != PoweredOn then Err(NotInitialized)
    else if m.connected.Some? then Ok([DisconnectFirst, ConnectTo(uuid)])
    else if m.connecting.Some? then Ok([AbortFirst, ConnectTo(uuid)])
    else Ok([ConnectTo(uuid)])
  }

  /** The outcome of abortConnecting(): the new state, what happened to the
      promise that was pending, the peripheral whose connection attempt is
      cancelled, and whether abortConnecting's own promise fulfilled at once. */
  datatype Abort = Abort(manager: Manager, previous: Resolution, cancelled: Option<Peripheral>, fulfilledAtOnce: bool)

  /** abortConnecting() as written: the peripheral is set to nil before it is
      force-unwrapped for the cancel call, so every real abort traps. */
  function AbortConnectingAsWritten(m: Manager): (r: Outcome<Abort>)
    ensures r.Trapped? <==> m.connecting.Some?
    ensures r.Done? ==> r.value == Abort(m, Untouched, None, true)
  {
    // connectingPeripheral is nil by the time of the unwrap
    if m.connecting.Some? then Trapped
    else Done(Abort(m, Untouched, None, true))
  }

  /** abortConnecting() as intended: cancel the peripheral that was connecting. */
  function AbortConnecting(m: Manager): (r: Abort)
    ensures r.manager.connecting.None?
    ensures r.manager.connected == m.connected && r.manager.bleState == m.bleState
    ensures m.connecting.None? ==> r == Abort(m, Untouched, None, true)
    ensures m.connecting.Some? ==>
      r.cancelled == m.connecting && !r.fulfilledAtOnce &&
      r.manager.pending == CancelPendingConnection &&
      (m.pending == Connect ==> r.previous == Rejected(ConnectionCancelled)) &&
      (m.pending != Connect ==> r.previous == Untouched)
  {
    if m.connecting.Some? then
      var previous := if m.pending == Connect then Rejected(ConnectionCancelled) else Untouched;
      Abort(m.(connecting := None, pending := CancelPendingConnection), previous, m.connecting, false)
    else Abort(m, Untouched, None, true)
  }

  /** The abort defect: every state with a connection attempt in progress traps
      as written, where the intended version cancels that attempt. */
  lemma AbortConnectingTraps(m: Manager)
    requires m.connecting.Some?
    ensures AbortConnectingAsWritten(m).Trapped?
    ensures AbortConnecting(m).cancelled == m.connecting
  {
  }

  /** The synchronous part of disconnect(): the state, the peripherals whose
      connection is cancelled, whether the promise fulfilled at once, and whether
      it waits for the disconnect callback. */
  datatype Disconnecting = Disconnecting(manager: Manager, previous: Resolution, cancelled: seq<Peripheral>, fulfilledAtOnce: bool, awaiting: bool)

  /** disconnect(), with the intended abortConnecting. A pending connection
      attempt is aborted; a connected peripheral is cancelled and awaited, and
      with none connected the promise fulfils at once, even while an abort is
      still under way. */
  function StartDisconnect(m: Manager): (r: Disconnecting)
    ensures r.manager.connecting.None? && r.manager.connected == m.connected
    ensures m.connected.None? <==> r.fulfilledAtOnce
    ensures m.connected.Some? <==> r.awaiting
    ensures m.connected.Some? ==> r.manager.pending == Disconnect && m.connected.value in r.cancelled
    ensures m.connecting.Some? ==> m.connecting.value in r.cancelled
    ensures forall p :: p in r.cancelled ==> Some(p) == m.connected || Some(p) == m.connecting
    ensures m.connecting.None? && m.connected.None? ==> r.manager == m && r.cancelled == []
  {
    DisconnectAfterAbort(m, AbortConnecting(m))
  }

  /** The rest of disconnect() once the abort step `a` has run on `m`. */
  function DisconnectAfterAbort(m: Manager, a: Abort): Disconnecting {
    var aborted := if a.cancelled.Some? then [a.cancelled.value] else [];
    match m.connected
    case Some(p) =>
      Disconnecting(a.manager.(pending := Disconnect), a.previous, aborted + [p], false, true)
    case None =>
      Disconnecting(a.manager, a.previous, aborted, true, false)
  }

  /** disconnect() as written: with a connection attempt in progress it runs
      the as-written abortConnecting and traps; otherwise it behaves as the
      corrected version. */
  function StartDisconnectAsWritten(m: Manager): (r: Outcome<Disconnecting>)
    ensures r.Trapped? <==> m.connecting.Some?
    ensures r.Done? ==> r.value == StartDisconnect(m) && r.value.cancelled == (if m.connected.Some? then [m.connected.value] else [])
  {
    match AbortConnectingAsWritten(m)
    case Trapped => Trapped
    case Done(a) => Done(DisconnectAfterAbort(m, a))
  }

  /** The continuation of disconnect() once the cancel is confirmed. */
  function DisconnectCompleted(m: Manager): (r: Manager)
    ensures r.connected.None? && r.connecting == m.connecting && r.pending == m.pending
  {
    m.(connected := None)
  }

  /** The state in which _connect starts, each earlier step having fulfilled. */
  function Prepare(m: Manager, steps: seq<Step>): Manager
    decreases |steps|
  {
    if |steps| == 0 then m
    else match steps[0]
      case DisconnectFirst => Prepare(DisconnectCompleted(StartDisconnect(m).manager), steps[1..])
      case AbortFirst => Prepare(AbortConnecting(m).manager, steps[1..])
      case ConnectTo(_) => m
  }

  /** The state in which _connect starts under the as-written abort. */
  function PrepareAsWritten(m: Manager, steps: seq<Step>): Outcome<Manager>
    decreases |steps|
  {
    if |steps| == 0 then Done(m)
    else match steps[0]
      case DisconnectFirst =>
        (match StartDisconnectAsWritten(m)
         case Trapped => Trapped
         case Done(d) => PrepareAsWritten(DisconnectCompleted(d.manager), steps[1..]))
      case AbortFirst =>
        (match AbortConnectingAsWritten(m)
         case Trapped => Trapped
         case Done(a) => PrepareAsWritten(a.manager, steps[1..]))
      case ConnectTo(_) => Done(m)
  }

  /** As written, connect() traps whenever a connection attempt is in
      progress, whether or not a peripheral is also connected; otherwise it
      prepares the same state as with the corrected abort. */
  lemma ConnectAsWrittenTraps(m: Manager, uuid: string)
    requires ConnectPlan(m, uuid).Ok?
    ensures var steps := ConnectPlan(m, uuid).value;
      var s := PrepareAsWritten(m, steps[..|steps| - 1]);
      && (s.Trapped? <==> m.connecting.Some?)
      && (s.Done? ==> s.value == Prepare(m, steps[..|steps| - 1]))
  {
    var steps := ConnectPlan(m, uuid).value;
    if |steps| == 2 {
      assert steps[..1][1..] == [];
    }
  }

  /** The point of the ordering in connect(): the connection attempt always
      starts with no peripheral connected and none being connected to. */
  lemma ConnectStartsIdle(m: Manager, uuid: string)
    requires ConnectPlan(m, uuid).Ok?
    ensures var steps := ConnectPlan(m, uuid).value;
      var s := Prepare(m, steps[..|steps| - 1]);
      s.connected.None? && s.connecting.None? && s.bleState == m.bleState
  {
    var steps := ConnectPlan(m, uuid).value;
    if |steps| == 2 {
      assert steps[..1][1..] == [];
    }
  }

  /** _connect(uuid). An id that is not UUID text rejects INVALID_UUID; the
      peripheral is then taken from the stack's list for that id, whose first
      element is read without a check (`known` is that list). */
  function StartConnect(m: Manager, uuid: string, known: string -> seq<Peripheral>): (r: Outcome<Result<Manager, BluenetError>>)
    ensures !Conversion.IsUuidString(uuid) ==> r == Done(Err(InvalidUuid))
    ensures r.Trapped? <==> Conversion.IsUuidString(uuid) && |known(uuid)| == 0
    ensures r.Done? && r.value.Ok? ==>
      r.value.value == m.(connecting := Some(known(uuid)[0]), pending := Connect)
  {
    if !Conversion.IsUuidString(uuid) then Done(Err(InvalidUuid))
    else
      var peripherals := known(uuid);
      if |peripherals| == 0 then Trapped
      else Done(Ok(m.(connecting := Some(peripherals[0]), pending := Connect)))
  }

  // ---------------------------------------------------------------- services

  /** An operation that either answered at once or armed the slot. */
  datatype Call<T> = Answered(result: Result<T, BluenetError>) | Awaiting(manager: Manager)

  /** getServicesFromDevice(): cached services are returned with no discovery. */
  function GetServicesFromDevice(m: Manager): (r: Call<seq<Service>>)
    ensures m.connected.None? ==> r == Answered(Err(NotConnected))
    ensures m.connected.Some? && m.connected.value.services.Some? ==>
      r == Answered(Ok(m.connected.value.services.value))
    ensures r.Awaiting? <==> m.connected.Some? && m.connected.value.services.None?
    ensures r.Awaiting? ==> r.manager == m.(pending := GetServices)
  {
    match m.connected
    case None => Answered(Err(NotConnected))
    case Some(p) =>
      match p.services
      case Some(services) => Answered(Ok(services))
      case None => Awaiting(m.(pending := GetServices))
  }

  /** getChacteristic(serviceId, characteristicId) followed to its end. When a
      discovery is needed, `discoveredServices` and `discoveredCharacteristics`
      are what the delegate answered. */
  function GetCharacteristic(m: Manager, serviceId: string, characteristicId: string,
                             discoveredServices: Result<seq<Service>, BluenetError>,
                             discoveredCharacteristics: Result<seq<Characteristic>, BluenetError>): (r: Result<Characteristic, BluenetError>)
    ensures m.connected.None? ==> r == Err(NotConnected)
    ensures r.Ok? ==> r.value.uuid == Upper(characteristicId)
    ensures (m.connected.Some? && m.connected.value.services.Some? &&
             Lookup(m.connected.value.services.value, ServiceUuid, serviceId).None?) ==>
      r == Err(ServiceDoesNotExist)
    ensures r.Ok? ==> exists s :: s in KnownServices(m, discoveredServices) && s.uuid == Upper(serviceId)
    ensures ServicesOf(m, discoveredServices).Err? ==> r == Err(ServicesOf(m, discoveredServices).error)
    ensures var services := ServicesOf(m, discoveredServices);
            services.Ok? && (forall i :: 0 <= i < |services.value| ==> services.value[i].uuid != Upper(serviceId)) ==>
              r == Err(ServiceDoesNotExist)
    ensures var services := ServicesOf(m, discoveredServices);
            services.Ok? && Lookup(services.value, ServiceUuid, serviceId).Some? ==>
              var cs := CharacteristicsOf(Lookup(services.value, ServiceUuid, serviceId).value, discoveredCharacteristics);
              && (cs.Err? ==> r == Err(cs.error))
              && (cs.Ok? && (forall i :: 0 <= i < |cs.value| ==> cs.value[i].uuid != Upper(characteristicId)) ==>
                    r == Err(CharacteristicDoesNotExist))
              && (cs.Ok? && (exists i :: 0 <= i < |cs.value| && cs.value[i].uuid == Upper(characteristicId)) ==>
                    r.Ok? && r.value in cs.value)
  {
    var services :- ServicesOf(m, discoveredServices);
    var service := Lookup(services, ServiceUuid, serviceId);
    if service.None? then Err(ServiceDoesNotExist)
    else
      var characteristics :- CharacteristicsOf(service.value, discoveredCharacteristics);
      var characteristic := Lookup(characteristics, CharacteristicUuid, characteristicId);
      if characteristic.None? then Err(CharacteristicDoesNotExist)
      else Ok(characteristic.value)
  }

  /** The services the lookup sees: the cache, else the discovery answer. */
  function ServicesOf(m: Manager, discovered: Result<seq<Service>, BluenetError>): (r: Result<seq<Service>, BluenetError>)
    ensures m.connected.None? ==> r == Err(NotConnected)
    ensures m.connected.Some? && m.connected.value.services.Some? ==> r == Ok(m.connected.value.services.value)
    ensures m.connected.Some? && m.connected.value.services.None? ==> r == discovered
  {
    match GetServicesFromDevice(m)
    case Answered(result) => result
    case Awaiting(_) => discovered
  }

  /** The characteristics the lookup sees: the service's cache, else the
      discovery answer (getCharacteristicsFromDevice). */
  function CharacteristicsOf(service: Service, discovered: Result<seq<Characteristic>, BluenetError>): (r: Result<seq<Characteristic>, BluenetError>)
    ensures service.characteristics.Some? ==> r == Ok(service.characteristics.value)
    ensures service.characteristics.None? ==> r == discovered
  {
    match service.characteristics
    case Some(cs) => Ok(cs)
    case None => discovered
  }

  function KnownServices(m: Manager, discovered: Result<seq<Service>, BluenetError>): seq<Service> {
    var r := ServicesOf(m, discovered);
    if r.Ok? then r.value else []
  }

  // ---------------------------------------------------------------- notifications

  /** The event-bus topic of a characteristic's notifications. */
  function Topic(serviceId: string, characteristicId: string): string {
    serviceId + "_" + characteristicId
  }

  /** The event bus as far as notifications use it: subscription id -> topic. */
  type Subscriptions = map<int, string>

  predicate HasListeners(subs: Subscriptions, topic: string) {
    exists id :: id in subs && subs[id] == topic
  }

  /** disableNotifications(serviceId, characteristicId, callbackId): drop the
      callback; the device is told to stop notifying only when nobody listens. */
  function DisableNotificationsDecision(subs: Subscriptions, serviceId: string, characteristicId: string, callbackId: int): (r: (Subscriptions, bool))
    ensures callbackId !in r.0
    ensures forall id :: id in subs && id != callbackId ==> id in r.0 && r.0[id] == subs[id]
    ensures forall id :: id in r.0 ==> id in subs
    ensures r.1 <==> forall id :: id in subs && id != callbackId ==> subs[id] != Topic(serviceId, characteristicId)
  {
    var remaining := subs - {callbackId};
    var stop := !HasListeners(remaining, Topic(serviceId, characteristicId));
    (remaining, stop)
  }

  // ---------------------------------------------------------------- delegate

  /** The delegate callbacks that touch the pending slot. A platform error is
      carried as a BluenetError (Native) so that it can reject the slot. */
  datatype Event =
    | DidConnect(peripheral: Peripheral)
    | DidFailToConnect(failure: Option<BluenetError>)
    | DidDisconnect(failure: Option<BluenetError>)
    | DidDiscoverServices(failure: Option<BluenetError>, services: Option<seq<Service>>)
    | DidDiscoverCharacteristics(failure: Option<BluenetError>, characteristics: Option<seq<Characteristic>>)
    | DidUpdateValue(failure: Option<BluenetError>, characteristic: Characteristic)
    | DidWriteValue(failure: Option<BluenetError>)
    | DidUpdateNotificationState(failure: Option<BluenetError>)

  /** The kinds of pending promise an event answers. */
  predicate Answers(e: Event, kind: PromiseType) {
    match e
    case DidConnect(_) => kind == Connect
    case DidFailToConnect(_) => kind == Connect
    case DidDisconnect(_) => true
    case DidDiscoverServices(_, _) => kind == GetServices
    case DidDiscoverCharacteristics(_, _) => kind == GetCharacteristics
    case DidUpdateValue(_, _) => kind == ReadCharacteristic
    case DidWriteValue(_) => kind == WriteCharacteristic
    case DidUpdateNotificationState(_) => kind == EnableNotifications || kind == DisableNotifications
  }

  /** Fulfil with v, or reject with the event's error when there is one. */
  function Settle(failure: Option<BluenetError>, v: Value): (r: Resolution)
    ensures failure.Some? ==> r == Rejected(failure.value)
    ensures failure.None? ==> r == Fulfilled(v)
  {
    if failure.Some? then Rejected(failure.value) else Fulfilled(v)
  }

  /** didFailToConnectPeripheral as written: with no error and a pending
      CONNECT the missing error is force-unwrapped. */
  function DidFailToConnectAsWritten(m: Manager, failure: Option<BluenetError>): (r: Outcome<Resolution>)
    ensures r.Trapped? <==> failure.None? && m.pending == Connect
    ensures failure.Some? ==> r == Done(Rejected(failure.value))
    ensures failure.None? && m.pending != Connect ==> r == Done(Untouched)
  {
    if failure.Some? then Done(Rejected(failure.value))
    else if m.pending == Connect then Trapped
    else Done(Untouched)
  }

  /** The intended handling: a pending CONNECT is rejected with CONNECTION_FAILED
      when the stack gives no error, as the later delegate does. */
  function DidFailToConnect(m: Manager, failure: Option<BluenetError>): (r: Resolution)
    ensures failure.Some? ==> r == Rejected(failure.value)
    ensures failure.None? && m.pending == Connect ==> r == Rejected(ConnectionFailed)
    ensures failure.None? && m.pending != Connect ==> r == Untouched
  {
    if failure.Some? then Rejected(failure.value)
    else if m.pending == Connect then Rejected(ConnectionFailed)
    else Untouched
  }

  lemma DidFailToConnectCounterexample()
    ensures DidFailToConnectAsWritten(Manager(PoweredOn, None, None, Connect), None).Trapped?
    ensures DidFailToConnect(Manager(PoweredOn, None, None, Connect), None) == Rejected(ConnectionFailed)
  {
  }

  /** didDisconnectPeripheral: the rules, in order. The old delegate leaves the
      peripheral fields to disconnect()'s continuation. */
  function DidDisconnect(m: Manager, failure: Option<BluenetError>): (r: Resolution)
    ensures m.pending == CancelPendingConnection ==> r == Fulfilled(Nothing)
    ensures m.pending != CancelPendingConnection && failure.Some? ==> r == Rejected(failure.value)
    ensures m.pending != CancelPendingConnection && failure.None? ==>
      r == (if m.pending == Disconnect then Fulfilled(Nothing) else Rejected(Disconnected))
    ensures r != Untouched
  {
    if m.pending == CancelPendingConnection then Fulfilled(Nothing)
    else if failure.Some? then Rejected(failure.value)
    else if m.pending != Disconnect then Rejected(Disconnected)
    else Fulfilled(Nothing)
  }

  /** One delegate callback: the new state and what happened to the slot. */
  function Deliver(m: Manager, e: Event): (r: (Manager, Resolution))
    ensures e.DidConnect? && m.pending == Connect ==>
      r.0 == m.(connected := Some(e.peripheral), connecting := None)
    ensures !(e.DidConnect? && m.pending == Connect) ==> r.0 == m
    ensures e.DidDiscoverServices? && m.pending == GetServices && e.failure.None? ==>
      r.1 == (if e.services.Some? then Fulfilled(Services(e.services.value)) else Rejected(NoServices))
    ensures e.DidDiscoverCharacteristics? && m.pending == GetCharacteristics && e.failure.None? ==>
      r.1 == (if e.characteristics.Some? then Fulfilled(Characteristics(e.characteristics.value)) else Rejected(NoCharacteristics))
    ensures e.DidUpdateValue? && m.pending == ReadCharacteristic && e.failure.None? ==>
      r.1 == Fulfilled(Read(e.characteristic))
    ensures (!e.DidConnect? && !e.DidFailToConnect? && !e.DidDisconnect? &&
             Answers(e, m.pending) && e.failure.Some?) ==> r.1 == Rejected(e.failure.value)
    ensures e.DidConnect? ==> r.1 == (if m.pending == Connect then Fulfilled(Nothing) else Untouched)
    ensures (e.DidWriteValue? || e.DidUpdateNotificationState?) && Answers(e, m.pending) && e.failure.None? ==>
              r.1 == Fulfilled(Nothing)
    ensures e.DidFailToConnect? && e.failure.Some? ==> r.1 == Rejected(e.failure.value)
    ensures e.DidFailToConnect? && e.failure.None? ==>
              r.1 == (if m.pending == Connect then Rejected(ConnectionFailed) else Untouched)
    ensures e.DidDisconnect? ==> r.1 == DidDisconnect(m, e.failure)
    ensures !e.DidFailToConnect? && !e.DidDisconnect? && !Answers(e, m.pending) ==> r.1 == Untouched
  {
    match e
    case DidConnect(p) =>
      if m.pending == Connect then (m.(connected := Some(p), connecting := None), Fulfilled(Nothing))
      else (m, Untouched)
    case DidFailToConnect(failure) => (m, DidFailToConnect(m, failure))
    case DidDisconnect(failure) => (m, DidDisconnect(m, failure))
    case DidDiscoverServices(failure, services) =>
      if m.pending != GetServices then (m, Untouched)
      else if failure.Some? then (m, Rejected(failure.value))
      else if services.Some? then (m, Fulfilled(Services(services.value)))
      else (m, Rejected(NoServices))
    case DidDiscoverCharacteristics(failure, characteristics) =>
      if m.pending != GetCharacteristics then (m, Untouched)
      else if failure.Some? then (m, Rejected(failure.value))
      else if characteristics.Some? then (m, Fulfilled(Characteristics(characteristics.value)))
      else (m, Rejected(NoCharacteristics))
    case DidUpdateValue(failure, characteristic) =>
      if m.pending == ReadCharacteristic then (m, Settle(failure, Read(characteristic))) else (m, Untouched)
    case DidWriteValue(failure) =>
      if m.pending == WriteCharacteristic then (m, Settle(failure, Nothing)) else (m, Untouched)
    case DidUpdateNotificationState(failure) =>
      if m.pending == EnableNotifications || m.pending == DisableNotifications then (m, Settle(failure, Nothing))
      else (m, Untouched)
  }

  /** One delegate callback as written: the callbacks are those of Deliver,
      except that a connection failure without an error while a CONNECT is
      pending force-unwraps the missing error. */
  function DeliverAsWritten(m: Manager, e: Event): (r: Outcome<(Manager, Resolution)>)
    ensures r.Trapped? <==> e.DidFailToConnect? && e.failure.None? && m.pending == Connect
    ensures r.Done? ==> r.value == Deliver(m, e)
  {
    match e
    case DidFailToConnect(failure) =>
      (match DidFailToConnectAsWritten(m, failure)
       case Trapped => Trapped
       case Done(resolution) => Done((m, resolution)))
    case _ => Done(Deliver(m, e))
  }

  /** A callback only touches the slot when it answers the pending kind; the
      exceptions are a failed connection that carries an error, which rejects
      whatever is pending, and a disconnect, which always resolves the slot.
      As written, the one callback that does not settle so is a failed
      connection answering a pending CONNECT without an error: it traps. */
  lemma SlotResolvedOnlyByItsAnswer(m: Manager, e: Event)
    ensures !(e.DidFailToConnect? && e.failure.Some?) ==>
      (Deliver(m, e).1 != Untouched <==> Answers(e, m.pending))
    ensures e.DidFailToConnect? && e.failure.Some? ==> Deliver(m, e).1 == Rejected(e.failure.value)
    ensures DeliverAsWritten(m, e).Trapped? ==> e.DidFailToConnect? && Answers(e, m.pending)
    ensures DeliverAsWritten(m, e).Done? ==> DeliverAsWritten(m, e).value.1 == Deliver(m, e).1
  {
  }

  /** didUpdateValueForCharacteristic, its notification half: the value is
      emitted on the characteristic's topic when someone listens on it and the
      characteristic carries a value. The ids are the characteristic's own
      UUID text and that of its service, which is upper case. */
  function Notification(subs: Subscriptions, serviceId: string, characteristicId: string,
                        value: Option<seq<u8>>): (emitted: Option<(string, seq<u8>)>)
    ensures emitted.Some? <==> value.Some? && exists id :: id in subs && subs[id] == Topic(serviceId, characteristicId)
    ensures emitted.Some? ==> emitted.value == (Topic(serviceId, characteristicId), value.value)
  {
    var topic := Topic(serviceId, characteristicId);
    if HasListeners(subs, topic) && value.Some? then Some((topic, value.value)) else None
  }

  /** eventBus.on(topic, callback): the callback's id now listens on the topic. */
  function Subscribe(subs: Subscriptions, serviceId: string, characteristicId: string, id: int): (r: Subscriptions)
    ensures id in r && r[id] == Topic(serviceId, characteristicId)
    ensures forall other :: other in subs && other != id ==> other in r && r[other] == subs[other]
    ensures forall other :: other in r ==> other in subs || other == id
  {
    subs[id := Topic(serviceId, characteristicId)]
  }

  /** enableNotifications(serviceId, characteristicId, callback), followed to
      its end. `characteristic` is what getChacteristic answered and
      `notifyFailure` what the notification-state callback reported; `id` is
      the fresh id the event bus hands out. The callback is subscribed only
      once the characteristic is found, and unsubscribed again when enabling
      fails, so a failed enable leaves the subscriptions as they were. */
  function EnableNotificationsResult(subs: Subscriptions, serviceId: string, characteristicId: string, id: int,
                               characteristic: Result<Characteristic, BluenetError>,
                               notifyFailure: Option<BluenetError>): (r: (Subscriptions, Result<int, BluenetError>))
    requires id !in subs
    ensures r.1.Ok? <==> characteristic.Ok? && notifyFailure.None?
    ensures r.1.Ok? ==> r.1.value == id && r.0 == Subscribe(subs, serviceId, characteristicId, id)
    ensures r.1.Err? ==> r.0 == subs
    ensures characteristic.Err? ==> r.1 == Err(characteristic.error)
    ensures characteristic.Ok? && notifyFailure.Some? ==> r.1 == Err(notifyFailure.value)
  {
    match characteristic
    case Err(e) => (subs, Err(e))
    case Ok(_) =>
      var subscribed := Subscribe(subs, serviceId, characteristicId, id);
      match notifyFailure
      case Some(e) => (subscribed - {id}, Err(e))
      case None => (subscribed, Ok(id))
  }

  /** The intended enableNotifications: the callback is subscribed on the topic
      the notification callback emits on, built from the characteristic's own
      UUID text, which is upper case. */
  function EnableNotificationsIntended(subs: Subscriptions, serviceId: string, characteristicId: string, id: int,
                                       characteristic: Result<Characteristic, BluenetError>,
                                       notifyFailure: Option<BluenetError>): (r: (Subscriptions, Result<int, BluenetError>))
    requires id !in subs
    ensures r.1.Ok? <==> characteristic.Ok? && notifyFailure.None?
    ensures r.1.Ok? ==> r.1.value == id && r.0 == Subscribe(subs, Upper(serviceId), Upper(characteristicId), id)
    ensures r.1.Err? ==> r == EnableNotificationsResult(subs, serviceId, characteristicId, id, characteristic, notifyFailure)
  {
    EnableNotificationsResult(subs, Upper(serviceId), Upper(characteristicId), id, characteristic, notifyFailure)
  }

  /** With the intended subscription, a value of the characteristic reaches the
      listeners whatever case its ids were written in: the notification callback
      names it by the upper-cased ids that GetCharacteristic matched. Once the
      last listener of the topic is removed, and the device told to stop, no
      value is emitted. */
  lemma NotificationsFollowSubscriptions(subs: Subscriptions, serviceId: string, characteristicId: string, id: int,
                                         characteristic: Characteristic, value: seq<u8>)
    requires id !in subs
    ensures var (after, answer) := EnableNotificationsIntended(subs, serviceId, characteristicId, id, Ok(characteristic), None);
            && answer == Ok(id)
            && Notification(after, Upper(serviceId), Upper(characteristicId), Some(value))
               == Some((Topic(Upper(serviceId), Upper(characteristicId)), value))
    ensures var (remaining, stop) := DisableNotificationsDecision(subs, Upper(serviceId), Upper(characteristicId), id);
            stop ==> Notification(remaining, Upper(serviceId), Upper(characteristicId), Some(value)).None?
  {
    var after := EnableNotificationsIntended(subs, serviceId, characteristicId, id, Ok(characteristic), None).0;
    assert after[id] == Topic(Upper(serviceId), Upper(characteristicId));
  }

  /** As written, the callback is subscribed on the caller's text, and the
      value arrives on the upper-cased topic: it is delivered exactly when the
      two topics coincide or someone else already listens on the upper-cased one. */
  lemma AsWrittenDeliveryNeedsUpperIds(subs: Subscriptions, serviceId: string, characteristicId: string, id: int,
                                       characteristic: Characteristic, value: seq<u8>)
    requires id !in subs
    ensures var after := EnableNotificationsResult(subs, serviceId, characteristicId, id, Ok(characteristic), None).0;
            Notification(after, Upper(serviceId), Upper(characteristicId), Some(value)).Some?
            <==> (Topic(serviceId, characteristicId) == Topic(Upper(serviceId), Upper(characteristicId))
                  || HasListeners(subs, Topic(Upper(serviceId), Upper(characteristicId))))
    ensures Upper(serviceId) == serviceId && Upper(characteristicId) == characteristicId ==>
              var after := EnableNotificationsResult(subs, serviceId, characteristicId, id, Ok(characteristic), None).0;
              Notification(after, serviceId, characteristicId, Some(value)).Some?
  {
    var after := EnableNotificationsResult(subs, serviceId, characteristicId, id, Ok(characteristic), None).0;
    var upper := Topic(Upper(serviceId), Upper(characteristicId));
    if HasListeners(after, upper) {
      var other :| other in after && after[other] == upper;
      if other != id {
        assert other in subs && subs[other] == upper;
      }
    }
    if HasListeners(subs, upper) {
      var other :| other in subs && subs[other] == upper;
      assert other != id && after[other] == upper;
    }
    if Topic(serviceId, characteristicId) == upper {
      assert after[id] == upper;
    }
  }

  /** The library's own ids are lower case: subscribing on "a" and "b" and then
      receiving a value of characteristic "B" of service "A" emits nothing. */
  lemma LowerCaseIdsMissNotifications()
    ensures var after := EnableNotificationsResult(map[], "a", "b", 7, Ok(Characteristic("B")), None).0;
            Notification(after, "A", "B", Some([1])).None?
    ensures var after := EnableNotificationsIntended(map[], "a", "b", 7, Ok(Characteristic("B")), None).0;
            Notification(after, "A", "B", Some([1])).Some?
  {
    assert Upper("a") == "A" by { assert Upper("a")[0] == 'A'; }
    assert Upper("b") == "B" by { assert Upper("b")[0] == 'B'; }
    assert Topic("a", "b") != Topic("A", "B") by { assert Topic("a", "b")[0] != Topic("A", "B")[0]; }
  }

  /** Enabling on a topic nobody listens to and then disabling with the same
      id tells the device to stop and restores the subscriptions. */
  lemma EnableThenDisable(subs: Subscriptions, serviceId: string, characteristicId: string, id: int,
                          characteristic: Characteristic)
    requires id !in subs
    requires !HasListeners(subs, Topic(serviceId, characteristicId))
    ensures var after := EnableNotificationsResult(subs, serviceId, characteristicId, id, Ok(characteristic), None).0;
            DisableNotificationsDecision(after, serviceId, characteristicId, id) == (subs, true)
  {
    var after := EnableNotificationsResult(subs, serviceId, characteristicId, id, Ok(characteristic), None).0;
    assert after - {id} == subs;
  }
}
