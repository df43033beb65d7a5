/** BluenetCBDelegate: the central-manager delegate of the later library
    generation. Connections are kept per peripheral handle, in three maps of the
    BLE manager (connections, pendingConnections and the per-handle connection
    states), and each handle has its own pending task. Each callback is a pure
    transition of those maps, together with what it did to the handle's task
    and the event it emitted on the event bus.

    The BLE manager's task containers are not part of this model: a handle's
    task is read from a map, and a handle without an entry has a task of kind
    NoTask. Logging is left out. */
module CBDelegate {
  import opened Wrappers
  import opened Errors
  import BleManager

  type Handle = string

  /** The kinds of per-handle task the callbacks distinguish. */
  datatype TaskType =
    | NoTask
    | Connect
    | CancelPendingConnection
    | AwaitDisconnect
    | ErrorDisconnect
    | Disconnect
    | GetServices
    | GetCharacteristics
    | ReadCharacteristic
    | WriteCharacteristic
    | EnableNotifications
    | DisableNotifications

  /** The per-handle connection-state object, as far as these callbacks use it. */
  datatype ConnectionState = ConnectionState(connected: bool)

  datatype Central = Central(
    bleState: BleManager.BleState,
    updatedState: bool,
    batterySaving: bool,
    connections: map<Handle, Handle>,
    pendingConnections: map<Handle, Handle>,
    connectionStates: map<Handle, ConnectionState>,
    tasks: map<Handle, TaskType>)

  /** What happened to a handle's task. */
  datatype Resolution = Untouched | Fulfilled | Rejected(error: BluenetError)

  /** An event emitted on the event bus: topic and payload. */
  datatype Emitted = Emitted(topic: string, payload: string)

  datatype Reaction = Reaction(central: Central, resolution: Resolution, emitted: Emitted)

  function TaskOf(c: Central, h: Handle): TaskType {
    if h in c.tasks then c.tasks[h] else NoTask
  }

  /** Nothing keyed by another handle changes, nor does anything global. */
  predicate OnlyHandleChanged(c: Central, d: Central, h: Handle) {
    d.connections - {h} == c.connections - {h} &&
    d.pendingConnections - {h} == c.pendingConnections - {h} &&
    d.connectionStates - {h} == c.connectionStates - {h} &&
    d.tasks == c.tasks && d.bleState == c.bleState &&
    d.updatedState == c.updatedState && d.batterySaving == c.batterySaving
  }

  // ---------------------------------------------------------------- connections

  /** didConnect: fulfil a CONNECT task; in every case mark the handle connected
      and move it from the pending connections to the connections. */
  function DidConnect(c: Central, h: Handle): (r: Reaction)
    ensures r.resolution == (if TaskOf(c, h) == Connect then Fulfilled else Untouched)
    ensures h in r.central.connections && r.central.connections[h] == h
    ensures h !in r.central.pendingConnections
    ensures h in r.central.connectionStates && r.central.connectionStates[h].connected
    ensures OnlyHandleChanged(c, r.central, h)
    ensures r.emitted == Emitted("connectedToPeripheral", h)
  {
    var resolution := if TaskOf(c, h) == Connect then Fulfilled else Untouched;
    var d := c.(connectionStates := c.connectionStates[h := ConnectionState(true)],
                pendingConnections := c.pendingConnections - {h},
                connections := c.connections[h := h]);
    Reaction(d, resolution, Emitted("connectedToPeripheral", h))
  }

  /** didFailToConnect: reject a CONNECT task with the stack's error, or with
      CONNECTION_FAILED when there is none; drop the handle from the pending
      connections and, should it be there, from the connections. */
  function DidFailToConnect(c: Central, h: Handle, failure: Option<BluenetError>): (r: Reaction)
    ensures TaskOf(c, h) != Connect ==> r.resolution == Untouched
    ensures TaskOf(c, h) == Connect && failure.Some? ==> r.resolution == Rejected(failure.value)
    ensures TaskOf(c, h) == Connect && failure.None? ==> r.resolution == Rejected(ConnectionFailed)
    ensures h !in r.central.pendingConnections && h !in r.central.connections
    ensures r.central.connectionStates == c.connectionStates
    ensures OnlyHandleChanged(c, r.central, h)
    ensures r.emitted == Emitted("connectedToPeripheralFailed", h)
  {
    var errorVal := if failure.Some? then failure.value else ConnectionFailed;
    var resolution := if TaskOf(c, h) == Connect then Rejected(errorVal) else Untouched;
    var d := c.(pendingConnections := c.pendingConnections - {h}, connections := c.connections - {h});
    Reaction(d, resolution, Emitted("connectedToPeripheralFailed", h))
  }

  /** How didDisconnect settles the handle's task. */
  function DisconnectResolution(task: TaskType, failure: Option<BluenetError>): (r: Resolution)
    ensures task in {CancelPendingConnection, AwaitDisconnect, ErrorDisconnect} ==> r == Fulfilled
    ensures task !in {CancelPendingConnection, AwaitDisconnect, ErrorDisconnect} ==>
      (failure.Some? ==> r == Rejected(failure.value)) &&
      (failure.None? && task == Disconnect ==> r == Fulfilled) &&
      (failure.None? && task != Disconnect ==> r == Rejected(Disconnected))
  {
    if task == CancelPendingConnection then Fulfilled
    else if task == AwaitDisconnect then Fulfilled
    else if task == ErrorDisconnect then Fulfilled
    else if failure.Some? then Rejected(failure.value)
    else if task != Disconnect then Rejected(Disconnected)
    else Fulfilled
  }

  /** didDisconnectPeripheral: settle the task, then forget the handle in all
      three maps. */
  function DidDisconnect(c: Central, h: Handle, failure: Option<BluenetError>): (r: Reaction)
    ensures r.resolution == DisconnectResolution(TaskOf(c, h), failure)
    ensures h !in r.central.connections && h !in r.central.connectionStates && h !in r.central.pendingConnections
    ensures OnlyHandleChanged(c, r.central, h)
    ensures r.emitted == Emitted("disconnectedFromPeripheral", h)
  {
    var d := c.(connections := c.connections - {h},
                connectionStates := c.connectionStates - {h},
                pendingConnections := c.pendingConnections - {h});
    Reaction(d, DisconnectResolution(TaskOf(c, h), failure), Emitted("disconnectedFromPeripheral", h))
  }

  /** A disconnect always settles the task: it is never left untouched, and it
      is fulfilled exactly for the tasks that expect a disconnect. */
  lemma DisconnectAlwaysSettles(task: TaskType, failure: Option<BluenetError>)
    ensures DisconnectResolution(task, failure) != Untouched
    ensures DisconnectResolution(task, failure) == Fulfilled <==>
      task in {CancelPendingConnection, AwaitDisconnect, ErrorDisconnect} || (task == Disconnect && failure.None?)
  {
  }

  /** A connect followed by a disconnect forgets the handle entirely and leaves
      every other handle as it was. */
  lemma ConnectThenDisconnectForgets(c: Central, h: Handle, failure: Option<BluenetError>)
    ensures var d := DidDisconnect(DidConnect(c, h).central, h, failure).central;
      h !in d.connections && h !in d.connectionStates && h !in d.pendingConnections &&
      d.connections - {h} == c.connections - {h} &&
      d.pendingConnections - {h} == c.pendingConnections - {h} &&
      d.connectionStates - {h} == c.connectionStates - {h}
  {
  }

  // ---------------------------------------------------------------- power state

  /** The payload of the bleStatus event for each state. */
  function StatusName(s: BleManager.BleState): string {
    match s
    case Unauthorized => "unauthorized"
    case PoweredOff => "poweredOff"
    case PoweredOn => "poweredOn"
    case Resetting => "resetting"
    case Unknown => "unknown"
    case Unsupported => "unsupported"
  }

  /** The state a bleStatus payload names, if any. */
  function StatusOf(name: string): (s: Option<BleManager.BleState>)
    ensures s.Some? ==> StatusName(s.value) == name
  {
    if name == "unauthorized" then Some(BleManager.Unauthorized)
    else if name == "poweredOff" then Some(BleManager.PoweredOff)
    else if name == "poweredOn" then Some(BleManager.PoweredOn)
    else if name == "resetting" then Some(BleManager.Resetting)
    else if name == "unknown" then Some(BleManager.Unknown)
    else if name == "unsupported" then Some(BleManager.Unsupported)
    else None
  }

  /** The event payload identifies the state: reading it back gives the state. */
  lemma StatusRoundTrip(s: BleManager.BleState)
    ensures StatusOf(StatusName(s)) == Some(s)
  {
  }

  /** A state reported by the stack on iOS 10 and later: one of the known six,
      or a value added in a later system version. */
  datatype ReportedState = Known(state: BleManager.BleState) | Other(rawValue: int)

  /** centralManagerDidUpdateState on iOS 10 and later. */
  function DidUpdateState(c: Central, reported: ReportedState): (r: (Central, Emitted))
    ensures r.0.updatedState
    ensures reported.Known? ==> r.0.bleState == reported.state && r.1 == Emitted("bleStatus", StatusName(reported.state))
    ensures reported.Other? ==> r.0.bleState == c.bleState && r.1 == Emitted("bleStatus", "unknown")
    ensures r.0.connections == c.connections && r.0.pendingConnections == c.pendingConnections
    ensures r.0.connectionStates == c.connectionStates && r.0.tasks == c.tasks
  {
    var d := c.(updatedState := true);
    match reported
    case Known(s) => (d.(bleState := s), Emitted("bleStatus", StatusName(s)))
    case Other(_) => (d, Emitted("bleStatus", "unknown"))
  }

  /** centralManagerDidUpdateState before iOS 10: only raw values 3, 4 and 5
      (unauthorized, powered off, powered on) change the state. */
  function DidUpdateStateLegacy(c: Central, rawValue: int): (r: (Central, Emitted))
    ensures r.0.updatedState
    ensures rawValue == 3 ==> r.0.bleState == BleManager.Unauthorized
    ensures rawValue == 4 ==> r.0.bleState == BleManager.PoweredOff
    ensures rawValue == 5 ==> r.0.bleState == BleManager.PoweredOn
    ensures rawValue !in {3, 4, 5} ==> r.0.bleState == c.bleState && r.1 == Emitted("bleStatus", "unknown")
    ensures rawValue in {3, 4, 5} ==> r.1 == Emitted("bleStatus", StatusName(r.0.bleState))
  {
    var d := c.(updatedState := true);
    if rawValue == 3 then (d.(bleState := BleManager.Unauthorized), Emitted("bleStatus", "unauthorized"))
    else if rawValue == 4 then (d.(bleState := BleManager.PoweredOff), Emitted("bleStatus", "poweredOff"))
    else if rawValue == 5 then (d.(bleState := BleManager.PoweredOn), Emitted("bleStatus", "poweredOn"))
    else (d, Emitted("bleStatus", "unknown"))
  }

  /** The two code paths agree on the three states the older one knows. */
  lemma LegacyAgrees(c: Central)
    ensures DidUpdateStateLegacy(c, 3) == DidUpdateState(c, Known(BleManager.Unauthorized))
    ensures DidUpdateStateLegacy(c, 4) == DidUpdateState(c, Known(BleManager.PoweredOff))
    ensures DidUpdateStateLegacy(c, 5) == DidUpdateState(c, Known(BleManager.PoweredOn))
  {
  }

  // ---------------------------------------------------------------- scanning

  /** didDiscover: in battery-saving mode the advertisement is dropped;
      otherwise it is emitted as rawAdvertisementData. */
  function DidDiscover<A>(c: Central, advertisement: A): (r: Option<A>)
    ensures r.None? <==> c.batterySaving
    ensures r.Some? ==> r.value == advertisement
  {
    if c.batterySaving then None else Some(advertisement)
  }
}
